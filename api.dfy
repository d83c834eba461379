/**
 * The REST facade's session table (api.py, `chat_sessions`).
 *
 * The table maps a session id to the session's bot and its creation stamp.
 * Each session owns its bot and no other code holds a reference to it, so a
 * session stores the bot's state (its history) by value, and a bot's `chat`
 * and `clear_history` become the functions that `ChatBot.Chat` and
 * `ChatBot.ClearHistory` are proved to implement. Fresh ids (`uuid4`) and
 * creation stamps (`uuid1().time`) are supplied by the caller; a freshness
 * precondition stands in for the uniqueness of a random UUID. Routing and
 * HTTP encoding are dropped; an unknown id answers `NotFound` (HTTP 404).
 */
module Api {
  import opened Wrappers
  import opened Conversation

  /** One table entry: its creation stamp and its bot's history. */
  datatype Session = Session(createdAt: string, history: seq<Msg>)

  /** What `get_session` and `list_sessions` report about a session. */
  datatype SessionInfo = SessionInfo(sessionId: string, messageCount: nat, createdAt: string)

  /** One entry of the history endpoint's answer. */
  datatype HistoryEntry = HistoryEntry(role: string, content: string)

  /** An endpoint's answer: a value, or 404 "Session not found". */
  datatype Reply<T> = Ok(value: T) | NotFound

  /** The report about one session: its id, its bot's message count and its stamp. */
  function Info(id: string, s: Session): (info: SessionInfo)
    ensures info.sessionId == id
    ensures info.messageCount == |s.history|
    ensures info.createdAt == s.createdAt
  {
    SessionInfo(id, |s.history|, s.createdAt)
  }

  /** The id a chat request runs under: the client's id, unless it is
      missing or empty, in which case the freshly generated one. */
  function ChosenId(sessionId: Option<string>, freshId: string): (sid: string)
    ensures sessionId.Some? && sessionId.value != "" ==> sid == sessionId.value
    ensures sessionId.None? || sessionId.value == "" ==> sid == freshId
  {
    if sessionId.Some? && sessionId.value != "" then sessionId.value else freshId
  }

  /** The history endpoint's labelling: by position, "user" at even
      indices and "assistant" at odd ones, with the message text. */
  function Labelled(h: seq<Msg>): (entries: seq<HistoryEntry>)
    ensures |entries| == |h|
    ensures forall i :: 0 <= i < |h| ==> entries[i].content == h[i].content
    ensures forall i :: 0 <= i < |h| ==>
      entries[i].role == (if i % 2 == 0 then "user" else "assistant")
  {
    seq(|h|, i requires 0 <= i < |h| =>
      HistoryEntry(if i % 2 == 0 then "user" else "assistant", h[i].content))
  }

  /** The positional labels are right only because the history alternates:
      on an alternating history, "user" marks exactly the user's messages. */
  lemma {:induction false} LabelledMatchesSpeakers(h: seq<Msg>)
    requires Alternating(h)
    ensures forall i :: 0 <= i < |h| ==> (Labelled(h)[i].role == "user" <==> h[i].Human?)
    ensures forall i :: 0 <= i < |h| ==> (Labelled(h)[i].role == "assistant" <==> h[i].AI?)
  {
    var entries := Labelled(h);
    forall i | 0 <= i < |h|
      ensures (entries[i].role == "user" <==> h[i].Human?)
      ensures (entries[i].role == "assistant" <==> h[i].AI?)
    {
      assert entries[i].role == (if i % 2 == 0 then "user" else "assistant");
      assert "user" != "assistant";
    }
  }

  /** Without alternation the labelling is wrong: a history that starts with
      an assistant turn is labelled "user" there. */
  lemma LabelledNeedsAlternation(text: string)
    ensures Labelled([AI(text)])[0].role == "user"
  {
  }

  /** No id occurs twice. */
  predicate Distinct(s: seq<string>)
  {
    forall i, j :: 0 <= i < j < |s| ==> s[i] != s[j]
  }

  /** `s` with every occurrence of `x` taken out, the rest in order
      (what `del` does to a dictionary's iteration order). */
  function Without(s: seq<string>, x: string): (r: seq<string>)
    ensures forall y :: y in r <==> y in s && y != x
    ensures x !in s ==> r == s
  {
    if s == [] then []
    else if s[0] == x then Without(s[1..], x)
    else [s[0]] + Without(s[1..], x)
  }

  /** `s` lists the ids of `keys`, each exactly once: the iteration order of
      a dictionary whose key set is `keys`. */
  predicate Enumerates(s: seq<string>, keys: set<string>)
    decreases |s|
  {
    if s == [] then keys == {}
    else s[0] in keys && Enumerates(s[1..], keys - {s[0]})
  }

  /** An enumeration mentions exactly the keys, without repetition, so it
      has one entry per key. */
  lemma {:induction false} EnumeratesMembers(s: seq<string>, keys: set<string>)
    requires Enumerates(s, keys)
    ensures forall y :: y in s <==> y in keys
    ensures Distinct(s)
    ensures |s| == |keys|
    decreases |s|
  {
    if s != [] {
      var rest := s[1..];
      EnumeratesMembers(rest, keys - {s[0]});
      assert s == [s[0]] + rest;
      assert s[0] !in rest;
      forall i, j | 0 <= i < j < |s|
        ensures s[i] != s[j]
      {
        if i > 0 {
          assert s[i] == rest[i - 1] && s[j] == rest[j - 1];
        } else {
          assert s[j] in rest by { assert s[j] == rest[j - 1]; }
        }
      }
    }
  }

  /** Inserting a new key appends it to the iteration order. */
  lemma {:induction false} EnumeratesAppend(s: seq<string>, keys: set<string>, x: string)
    requires Enumerates(s, keys) && x !in keys
    ensures Enumerates(s + [x], keys + {x})
    decreases |s|
  {
    if s == [] {
      assert [x][1..] == [];
      assert keys + {x} - {x} == {};
    } else {
      EnumeratesAppend(s[1..], keys - {s[0]}, x);
      assert (s + [x])[1..] == s[1..] + [x];
      assert keys + {x} - {s[0]} == (keys - {s[0]}) + {x};
    }
  }

  /** Deleting a key takes it out of the iteration order, the rest in order. */
  lemma {:induction false} EnumeratesWithout(s: seq<string>, keys: set<string>, x: string)
    requires Enumerates(s, keys)
    ensures Enumerates(Without(s, x), keys - {x})
    decreases |s|
  {
    if s != [] {
      EnumeratesWithout(s[1..], keys - {s[0]}, x);
      if s[0] == x {
        assert keys - {s[0]} - {x} == keys - {x};
      } else {
        var r := Without(s, x);
        assert r == [s[0]] + Without(s[1..], x);
        assert r[1..] == Without(s[1..], x);
        assert keys - {s[0]} - {x} == keys - {x} - {s[0]};
      }
    }
  }

  class SessionTable {
    var sessions: map<string, Session>
    /** The ids in insertion order, the order in which a Python dict iterates. */
    var order: seq<string>

    /** `order` lists every id exactly once, and every history keeps the
        bot's invariant. */
    ghost predicate Valid()
      reads this
    {
      && Enumerates(order, sessions.Keys)
      && (forall id :: id in sessions ==> BotInvariant(sessions[id].history))
    }

    /** The table starts empty. */
    constructor ()
      ensures Valid() && sessions == map[] && order == []
    {
      sessions := map[];
      order := [];
    }

    /** `health_check`: the status and the number of sessions. */
    method HealthCheck() returns (status: string, count: nat)
      requires Valid()
      ensures status == "healthy" && count == |sessions| == |order|
    {
      status := "healthy";
      count := |sessions|;
      EnumeratesMembers(order, sessions.Keys);
    }

    /** `chat`: get or create the session, then let its bot answer. */
    method Chat(message: string, sessionId: Option<string>, freshId: string, createdAt: string,
                agent: AgentOutcome)
      returns (reply: string, sid: string)
      requires Valid()
      requires sessionId.None? || sessionId.value == "" ==> freshId !in sessions
      modifies this
      ensures Valid()
      ensures sid == ChosenId(sessionId, freshId)
      ensures reply == ReplyTo(agent)
      ensures order == if sid in old(sessions) then old(order) else old(order) + [sid]
      ensures sessions == old(sessions)[sid := Session(
                if sid in old(sessions) then old(sessions)[sid].createdAt else createdAt,
                AfterChat(if sid in old(sessions) then old(sessions)[sid].history else [], message, agent))]
    {
      sid := ChosenId(sessionId, freshId);
      if sid !in sessions {
        EnumeratesAppend(order, sessions.Keys, sid);
        sessions := sessions[sid := Session(createdAt, [])];
        order := order + [sid];
        assert sessions.Keys == old(sessions.Keys) + {sid};
      }
      var session := sessions[sid];
      ghost var keys := sessions.Keys;
      AfterChatKeepsInvariant(session.history, message, agent);
      reply := ReplyTo(agent);
      sessions := sessions[sid := Session(session.createdAt, AfterChat(session.history, message, agent))];
      assert sessions.Keys == keys;
    }

    /** `create_session`: a new session with an empty history under a fresh id. */
    method CreateSession(freshId: string, createdAt: string) returns (sid: string)
      requires Valid()
      requires freshId !in sessions
      modifies this
      ensures Valid()
      ensures sid == freshId && sid !in old(sessions)
      ensures order == old(order) + [sid]
      ensures sessions == old(sessions)[sid := Session(createdAt, [])]
    {
      sid := freshId;
      EnumeratesAppend(order, sessions.Keys, sid);
      sessions := sessions[sid := Session(createdAt, [])];
      order := order + [sid];
      assert sessions.Keys == old(sessions.Keys) + {sid};
    }

    /** `get_session`: the session's message count and stamp, or 404. */
    method GetSession(id: string) returns (r: Reply<SessionInfo>)
      requires Valid()
      ensures id !in sessions <==> r == NotFound
      ensures id in sessions ==> r == Ok(Info(id, sessions[id]))
    {
      if id !in sessions {
        return NotFound;
      }
      r := Ok(SessionInfo(id, |sessions[id].history|, sessions[id].createdAt));
    }

    /** `clear_session`: empties that session's history only, or 404. */
    method ClearSession(id: string) returns (r: Reply<string>)
      requires Valid()
      modifies this
      ensures Valid() && order == old(order)
      ensures id !in old(sessions) <==> r == NotFound
      ensures id !in old(sessions) ==> sessions == old(sessions)
      ensures id in old(sessions) ==> r == Ok("Session history cleared")
      ensures id in old(sessions) ==>
        sessions == old(sessions)[id := Session(old(sessions)[id].createdAt, [])]
    {
      if id !in sessions {
        return NotFound;
      }
      sessions := sessions[id := Session(sessions[id].createdAt, [])];
      assert sessions.Keys == old(sessions.Keys);
      r := Ok("Session history cleared");
    }

    /** `delete_session`: removes exactly that id, or 404. */
    method DeleteSession(id: string) returns (r: Reply<string>)
      requires Valid()
      modifies this
      ensures Valid()
      ensures id !in old(sessions) <==> r == NotFound
      ensures id in old(sessions) ==> r == Ok("Session deleted")
      ensures sessions == old(sessions) - {id} && id !in sessions
      ensures order == Without(old(order), id)
      ensures id !in old(sessions) ==> order == old(order)
    {
      EnumeratesMembers(order, sessions.Keys);
      if id !in sessions {
        return NotFound;
      }
      EnumeratesWithout(order, sessions.Keys, id);
      sessions := sessions - {id};
      order := Without(order, id);
      assert sessions.Keys == old(sessions.Keys) - {id};
      r := Ok("Session deleted");
    }

    /** `list_sessions`: in insertion order, one entry per session with its
        id, message count and stamp. */
    method ListSessions() returns (infos: seq<SessionInfo>)
      requires Valid()
      ensures |infos| == |order| == |sessions|
      ensures forall id :: id in sessions <==> id in order
      ensures forall k :: 0 <= k < |infos| ==>
        order[k] in sessions && infos[k] == Info(order[k], sessions[order[k]])
    {
      EnumeratesMembers(order, sessions.Keys);
      infos := [];
      for k := 0 to |order|
        invariant |infos| == k
        invariant forall j :: 0 <= j < k ==> infos[j] == Info(order[j], sessions[order[j]])
      {
        var id := order[k];
        infos := infos + [SessionInfo(id, |sessions[id].history|, sessions[id].createdAt)];
      }
    }

    /** `get_history`: the session's messages labelled by position, or 404.
        Because every history alternates, the labels name the speakers. */
    method GetHistory(id: string) returns (r: Reply<seq<HistoryEntry>>)
      requires Valid()
      ensures id !in sessions <==> r == NotFound
      ensures id in sessions ==> r == Ok(Labelled(sessions[id].history))
      ensures r.Ok? ==> forall i :: 0 <= i < |r.value| ==>
        (r.value[i].role == "user" <==> sessions[id].history[i].Human?)
    {
      if id !in sessions {
        return NotFound;
      }
      var h := sessions[id].history;
      LabelledMatchesSpeakers(h);
      r := Ok(Labelled(h));
    }
  }
}

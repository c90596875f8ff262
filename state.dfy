/** The relay's two collections as one value, and the two handlers that
    write to them, POST /participants and POST /messages, as transitions on
    that value. Requests are handled one at a time. */
module ChatState {
  import opened ChatTypes
  import opened Schemas

  datatype State = State(participants: seq<Participant>, messages: seq<Message>)

  /** The new state and the status code a handler answers with. */
  datatype Outcome = Outcome(store: State, status: int)

  const Empty: State := State([], [])

  /** The `findOne({ name })` lookup. */
  predicate Registered(ps: seq<Participant>, name: string)
  {
    exists i :: 0 <= i < |ps| && ps[i].name == name
  }

  /** POST /participants. `now` and `time` stand for the clock reading and
      its "HH:mm:ss" formatting. */
  function Join(st: State, name: Field, now: int, time: string): (r: Outcome)
    ensures ValidateParticipant(name).None? ==> r == Outcome(st, Unprocessable)
    ensures ValidateParticipant(name).Some? && Registered(st.participants, name.s) ==>
      r == Outcome(st, Conflict)
    ensures ValidateParticipant(name).Some? && !Registered(st.participants, name.s) ==>
      && r.status == Created
      && r.store.participants == st.participants + [Participant(name.s, now)]
      && r.store.messages == st.messages + [JoinNotice(name.s, time)]
  {
    var accepted := ValidateParticipant(name);
    if accepted.None? then Outcome(st, Unprocessable)
    else if Registered(st.participants, accepted.value) then Outcome(st, Conflict)
    else
      var n := accepted.value;
      Outcome(State(st.participants + [Participant(n, now)], st.messages + [JoinNotice(n, time)]), Created)
  }

  /** POST /messages. The sender is whatever the `user` header says; it is
      not checked against `participants`. */
  function Post(st: State, user: Option<string>, to: Field, text: Field, kind: Field, time: string): (r: Outcome)
    ensures ValidateMessage(user, to, text, kind, time).None? ==> r == Outcome(st, Unprocessable)
    ensures ValidateMessage(user, to, text, kind, time).Some? ==>
      && r.status == Created
      && r.store.participants == st.participants
      && r.store.messages == st.messages + [Message(user.value, to.s, text.s, kind.s, time)]
  {
    match ValidateMessage(user, to, text, kind, time)
    case None => Outcome(st, Unprocessable)
    case Some(m) => Outcome(State(st.participants, st.messages + [m]), Created)
  }

  // ---------------------------------------------------------------------
  // What every reachable state satisfies

  predicate DistinctNames(ps: seq<Participant>)
  {
    forall i, j :: 0 <= i < j < |ps| ==> ps[i].name != ps[j].name
  }

  /** What the schemas and the join handler guarantee of every stored message. */
  predicate WellFormed(m: Message)
  {
    && m.from != "" && m.to != "" && m.text != ""
    && (m.kind == PublicKind || m.kind == PrivateKind || m.kind == StatusKind)
    && (m.kind == StatusKind ==> m.to == Everyone && m.text == JoinText)
  }

  /** The participant names in store order. */
  function Names(ps: seq<Participant>): (r: seq<string>)
    ensures |r| == |ps|
    ensures forall i :: 0 <= i < |ps| ==> r[i] == ps[i].name
  {
    if ps == [] then [] else Names(ps[..|ps| - 1]) + [ps[|ps| - 1].name]
  }

  /** The senders of the status messages of `log`, in log order. */
  function StatusSenders(log: seq<Message>): seq<string>
  {
    if log == [] then []
    else
      var last := log[|log| - 1];
      StatusSenders(log[..|log| - 1]) + (if last.kind == StatusKind then [last.from] else [])
  }

  /** Names are unique and long enough, every message is well formed, and
      the participants are exactly the senders of the join notices, in the
      same order: each join stored one of each, and nothing else stores
      either. */
  ghost predicate Invariant(st: State)
  {
    && DistinctNames(st.participants)
    && (forall i :: 0 <= i < |st.participants| ==> |st.participants[i].name| >= MinNameLength)
    && (forall i :: 0 <= i < |st.messages| ==> WellFormed(st.messages[i]))
    && Names(st.participants) == StatusSenders(st.messages)
  }

  /** Empty collections satisfy the invariant. */
  lemma EmptyInvariant()
    ensures Invariant(Empty)
  {
  }

  /** Every outcome of POST /participants keeps the invariant. */
  lemma JoinPreservesInvariant(st: State, name: Field, now: int, time: string)
    requires Invariant(st)
    ensures Invariant(Join(st, name, now, time).store)
  {
  }

  /** Every outcome of POST /messages keeps the invariant. */
  lemma PostPreservesInvariant(st: State, user: Option<string>, to: Field, text: Field, kind: Field, time: string)
    requires Invariant(st)
    ensures Invariant(Post(st, user, to, text, kind, time).store)
  {
  }

  /** Joining with a name that was just accepted is a conflict, and changes
      nothing. */
  lemma SecondJoinConflicts(st: State, name: Field, now: int, time: string, now': int, time': string)
    requires Join(st, name, now, time).status == Created
    ensures Join(Join(st, name, now, time).store, name, now', time') ==
            Outcome(Join(st, name, now, time).store, Conflict)
  {
    var ps := Join(st, name, now, time).store.participants;
    assert ps[|ps| - 1].name == name.s;
  }

  /** A name accepted once is refused with 409 whatever requests are
      handled afterwards. */
  lemma JoinedNameStaysTaken(st: State, name: Field, now: int, time: string, reqs: seq<Request>, now': int, time': string)
    requires Join(st, name, now, time).status == Created
    ensures Join(Replay(Join(st, name, now, time).store, reqs), name, now', time').status == Conflict
  {
    var joined := Join(st, name, now, time).store;
    var later := Replay(joined, reqs);
    ReplayOnlyAppends(joined, reqs);
    var k := |joined.participants| - 1;
    assert later.participants[k] == joined.participants[k];
    assert later.participants[k].name == name.s;
  }

  /** A registered participant has a join notice in the log. */
  lemma {:induction false} RegisteredWasAnnounced(st: State, name: string)
    requires Invariant(st) && Registered(st.participants, name)
    ensures exists i :: 0 <= i < |st.messages| && st.messages[i].from == name && st.messages[i].kind == StatusKind
  {
    var k :| 0 <= k < |st.participants| && st.participants[k].name == name;
    assert name in StatusSenders(st.messages);
    SenderHasStatusMessage(st.messages, name);
  }

  lemma {:induction false} SenderHasStatusMessage(log: seq<Message>, name: string)
    requires name in StatusSenders(log)
    ensures exists i :: 0 <= i < |log| && log[i].from == name && log[i].kind == StatusKind
  {
    var init, last := log[..|log| - 1], log[|log| - 1];
    if !(last.kind == StatusKind && last.from == name) {
      SenderHasStatusMessage(init, name);
      var i :| 0 <= i < |init| && init[i].from == name && init[i].kind == StatusKind;
      assert log[i] == init[i];
    }
  }

  /** POST /messages never consults `participants`: its status and the log
      it produces are the same whatever participants are stored. */
  lemma PostIgnoresParticipants(a: State, b: State, user: Option<string>, to: Field, text: Field, kind: Field, time: string)
    requires a.messages == b.messages
    ensures Post(a, user, to, text, kind, time).status == Post(b, user, to, text, kind, time).status
    ensures Post(a, user, to, text, kind, time).store.messages == Post(b, user, to, text, kind, time).store.messages
    ensures Post(a, user, to, text, kind, time).store.participants == a.participants
  {
  }

  /** The sender of a posted message need not be a participant: with no one
      registered, "ana" can still post to everyone. */
  lemma UnregisteredSenderAccepted()
    ensures !Registered(Empty.participants, "ana")
    ensures Post(Empty, Some("ana"), Str("Todos"), Str("hi"), Str(PublicKind), "10:00:00").status == Created
  {
  }

  // ---------------------------------------------------------------------
  // Any sequence of requests

  datatype Request =
    | JoinRequest(name: Field, now: int, time: string)
    | PostRequest(user: Option<string>, to: Field, text: Field, kind: Field, time: string)

  function Step(st: State, req: Request): Outcome
  {
    match req
    case JoinRequest(name, now, time) => Join(st, name, now, time)
    case PostRequest(user, to, text, kind, time) => Post(st, user, to, text, kind, time)
  }

  /** The state after handling `reqs` one after the other. */
  function Replay(st: State, reqs: seq<Request>): State
    decreases |reqs|
  {
    if reqs == [] then st else Replay(Step(st, reqs[0]).store, reqs[1..])
  }

  lemma {:induction false} ReplayPreservesInvariant(st: State, reqs: seq<Request>)
    requires Invariant(st)
    ensures Invariant(Replay(st, reqs))
    decreases |reqs|
  {
    if reqs != [] {
      match reqs[0] {
        case JoinRequest(name, now, time) => JoinPreservesInvariant(st, name, now, time);
        case PostRequest(user, to, text, kind, time) => PostPreservesInvariant(st, user, to, text, kind, time);
      }
      ReplayPreservesInvariant(Step(st, reqs[0]).store, reqs[1..]);
    }
  }

  /** Starting from empty collections, names stay pairwise distinct whatever
      requests arrive. */
  lemma NamesStayDistinct(reqs: seq<Request>)
    ensures DistinctNames(Replay(Empty, reqs).participants)
  {
    EmptyInvariant();
    ReplayPreservesInvariant(Empty, reqs);
  }

  /** Both collections are append-only: every request sequence keeps the
      earlier documents as a prefix. */
  lemma {:induction false} ReplayOnlyAppends(st: State, reqs: seq<Request>)
    ensures st.participants <= Replay(st, reqs).participants
    ensures st.messages <= Replay(st, reqs).messages
    decreases |reqs|
  {
    if reqs != [] {
      var next := Step(st, reqs[0]).store;
      ReplayOnlyAppends(next, reqs[1..]);
    }
  }
}

/** The relay's handlers over the two collections it keeps, `participants`
    and `messages`, each a sequence that the writing handlers extend in
    place. */
module Server {
  import opened ChatTypes
  import opened Schemas
  import opened Visibility
  import opened ChatState

  class ChatServer {
    var participants: seq<Participant>
    var messages: seq<Message>

    ghost predicate Valid()
      reads this
    {
      Invariant(State(participants, messages))
    }

    constructor ()
      ensures Valid()
      ensures participants == [] && messages == []
    {
      participants, messages := [], [];
      EmptyInvariant();
    }

    /** POST /participants: validate the name, look it up, then insert the
        participant and its join notice. */
    method PostParticipants(name: Field, now: int, time: string) returns (status: int)
      requires Valid()
      modifies this
      ensures Valid()
      ensures Outcome(State(participants, messages), status) ==
              Join(old(State(participants, messages)), name, now, time)
    {
      ghost var before := State(participants, messages);
      JoinPreservesInvariant(before, name, now, time);
      var accepted := ValidateParticipant(name);
      if accepted.None? {
        return Unprocessable;
      }
      var n := accepted.value;
      if Registered(participants, n) {
        return Conflict;
      }
      participants := participants + [Participant(n, now)];
      messages := messages + [JoinNotice(n, time)];
      status := Created;
    }

    /** GET /participants: every stored participant, in store order. */
    method GetParticipants() returns (list: seq<Participant>)
      ensures list == participants
      ensures Valid() ==> DistinctNames(list)
      ensures Valid() ==> forall i :: 0 <= i < |list| ==> |list[i].name| >= MinNameLength
    {
      list := participants;
    }

    /** POST /messages: build the message from the `user` header and the
        body, validate it, append it. */
    method PostMessages(user: Option<string>, to: Field, text: Field, kind: Field, time: string) returns (status: int)
      requires Valid()
      modifies this
      ensures Valid()
      ensures Outcome(State(participants, messages), status) ==
              Post(old(State(participants, messages)), user, to, text, kind, time)
    {
      ghost var before := State(participants, messages);
      PostPreservesInvariant(before, user, to, text, kind, time);
      var message := ValidateMessage(user, to, text, kind, time);
      if message.None? {
        return Unprocessable;
      }
      messages := messages + [message.value];
      status := Created;
    }

    /** GET /messages with a positive `limit`. */
    method GetMessages(user: Option<string>, limit: nat) returns (r: ReadResult)
      requires 0 < limit
      ensures r == Read(messages, user, limit)
      ensures r.Found? ==> forall i :: 0 <= i < |r.list| ==> VisibleTo(r.list[i], user)
      ensures r.Found? ==> |r.list| <= limit && IsSubsequence(r.list, messages)
      ensures r.Rejected? <==> forall i :: 0 <= i < |messages| ==> !VisibleTo(messages[i], user)
    {
      r := Read(messages, user, limit);
    }
  }

}

/** GET /messages: the `$or` visibility filter over the message log, cut to
    `limit`. The query has no sort; the log is taken to be returned in
    insertion order, which MongoDB's natural order gives in practice for an
    insert-only collection but does not guarantee. */
module Visibility {
  import opened ChatTypes

  /** The filter's three alternatives: sent by the user, addressed to the user
      or to everyone, or a public message. A missing `user` header reaches the
      store as null, which matches no stored `from` or `to` (those are always
      strings), so only the last two alternatives can hold. */
  predicate VisibleTo(m: Message, user: Option<string>)
  {
    || (user.Some? && (m.from == user.value || m.to == user.value))
    || m.to == Everyone
    || m.kind == PublicKind
  }

  /** `a` is `b` with some elements left out, the rest kept in order. */
  predicate IsSubsequence<T(==)>(a: seq<T>, b: seq<T>)
    decreases |b|
  {
    if a == [] then true
    else if b == [] then false
    else (a[0] == b[0] && IsSubsequence(a[1..], b[1..])) || IsSubsequence(a, b[1..])
  }

  /** The messages of `log` the query matches, in log order: exactly the
      visible ones, each as often as it occurs in the log. */
  function Filter(log: seq<Message>, user: Option<string>): (r: seq<Message>)
    ensures |r| <= |log|
    ensures forall i :: 0 <= i < |r| ==> VisibleTo(r[i], user)
    ensures IsSubsequence(r, log)
    ensures r == [] <==> forall i :: 0 <= i < |log| ==> !VisibleTo(log[i], user)
  {
    if log == [] then []
    else
      var rest := Filter(log[1..], user);
      assert log == [log[0]] + log[1..];
      if VisibleTo(log[0], user) then
        assert ([log[0]] + rest)[1..] == rest;
        [log[0]] + rest
      else
        rest
  }

  /** Filter keeps every visible message as many times as the log holds it,
      and no other message. */
  lemma {:induction false} FilterCounts(log: seq<Message>, user: Option<string>, m: Message)
    ensures multiset(Filter(log, user))[m] == if VisibleTo(m, user) then multiset(log)[m] else 0
  {
    if log != [] {
      assert log == [log[0]] + log[1..];
      FilterCounts(log[1..], user, m);
    }
  }

  /** A prefix of a subsequence is a subsequence. */
  lemma {:induction false} PrefixOfSubsequence<T>(a: seq<T>, b: seq<T>, c: seq<T>)
    requires a <= b && IsSubsequence(b, c)
    ensures IsSubsequence(a, c)
    decreases |c|
  {
    if a != [] {
      assert b != [] && c != [];
      if b[0] == c[0] && IsSubsequence(b[1..], c[1..]) {
        PrefixOfSubsequence(a[1..], b[1..], c[1..]);
      } else {
        PrefixOfSubsequence(a, b, c[1..]);
      }
    }
  }

  /** The handler's answer: the first `limit` matching messages in store
      order, or 422 when none match. Only a positive `limit` is modelled. */
  function Read(log: seq<Message>, user: Option<string>, limit: nat): (r: ReadResult)
    requires 0 < limit
    ensures r.Rejected? <==> forall i :: 0 <= i < |log| ==> !VisibleTo(log[i], user)
    ensures r.Rejected? ==> r.code == Unprocessable
    ensures r.Found? ==> 0 < |r.list| <= limit
    ensures r.Found? ==> forall i :: 0 <= i < |r.list| ==> VisibleTo(r.list[i], user)
    ensures r.Found? ==> r.list <= Filter(log, user)
    ensures r.Found? ==> |r.list| == if limit < |Filter(log, user)| then limit else |Filter(log, user)|
    ensures r.Found? ==> IsSubsequence(r.list, log)
  {
    var all := Filter(log, user);
    var page := if limit < |all| then all[..limit] else all;
    if |page| == 0 then
      Rejected(Unprocessable)
    else
      PrefixOfSubsequence(page, all, log);
      Found(page)
  }

  /** Appending one message to the log extends every user's filtered view by
      that message when it is visible to them, and leaves it alone otherwise. */
  lemma {:induction false} FilterAppend(log: seq<Message>, m: Message, user: Option<string>)
    ensures Filter(log + [m], user) == Filter(log, user) + (if VisibleTo(m, user) then [m] else [])
  {
    if log != [] {
      assert (log + [m])[1..] == log[1..] + [m];
      FilterAppend(log[1..], m, user);
    }
  }

  /** With the log read in insertion order, a user who already has `limit`
      matching messages is answered with the same page after a new message
      is appended: the newer message is not returned to them. */
  lemma ReadIgnoresNewWhenFull(log: seq<Message>, m: Message, user: Option<string>, limit: nat)
    requires 0 < limit <= |Filter(log, user)|
    ensures Read(log + [m], user, limit) == Read(log, user, limit)
  {
    FilterAppend(log, m, user);
    var old' := Filter(log, user);
    var new' := Filter(log + [m], user);
    assert new'[..limit] == old'[..limit];
  }

  /** While a user has fewer than `limit` matching messages, a newly appended
      message visible to them ends their page. */
  lemma ReadShowsNewWhileRoom(log: seq<Message>, m: Message, user: Option<string>, limit: nat)
    requires |Filter(log, user)| < limit
    requires VisibleTo(m, user)
    ensures Read(log + [m], user, limit) == Found(Filter(log, user) + [m])
  {
    FilterAppend(log, m, user);
  }
}

/** The notification controller: list a user's notifications newest first, mark
    them read, and clear them. */
module Ledger {
  import opened Common
  import opened Seqs
  import opened Models

  function NotificationTime(n: Notification): int { n.createdAt }

  /** `Notification.find({ to: user }).sort({ createdAt: -1 })` */
  function Listing(notes: seq<Notification>, user: UserId): (r: seq<Notification>)
    ensures SortedDesc(r, NotificationTime)
    ensures forall n :: multiset(r)[n] == if n.to == user then multiset(notes)[n] else 0
    ensures forall n :: n in r <==> n in notes && n.to == user
  {
    SortDesc(Filter(notes, (n: Notification) => n.to == user), NotificationTime)
  }

  /** `Notification.updateMany({ to: user }, { read: true })` */
  function MarkRead(notes: seq<Notification>, user: UserId): (r: seq<Notification>)
    ensures |r| == |notes|
    ensures forall i :: 0 <= i < |r| ==> r[i] == notes[i].(read := r[i].read)
    ensures forall i :: 0 <= i < |r| && notes[i].to == user ==> r[i].read
    ensures forall i :: 0 <= i < |r| && notes[i].to != user ==> r[i] == notes[i]
  {
    seq(|notes|, i requires 0 <= i < |notes| =>
      if notes[i].to == user then notes[i].(read := true) else notes[i])
  }

  /** `Notification.deleteMany({ to: user })` */
  function Clear(notes: seq<Notification>, user: UserId): (r: seq<Notification>)
    ensures forall n :: n in r ==> n.to != user
    ensures forall n: Notification :: n.to != user ==> multiset(r)[n] == multiset(notes)[n]
  {
    Filter(notes, (n: Notification) => n.to != user)
  }

  /** One unfolding of `Clear`: the first notification stays exactly when it is
      someone else's. */
  lemma ClearCons(notes: seq<Notification>, user: UserId)
    requires notes != []
    ensures Clear(notes, user) == (if notes[0].to != user then [notes[0]] else []) + Clear(notes[1..], user)
  {
    FilterCons(notes, (m: Notification) => m.to != user);
  }

  /** The step of `ClearAll`: the entry at `i` is kept exactly when it is someone else's. */
  lemma ClearStep(notes: seq<Notification>, user: UserId, i: nat, kept: seq<Notification>)
    requires i < |notes|
    requires Clear(notes, user) == kept + Clear(notes[i..], user)
    ensures Clear(notes, user) == (kept + if notes[i].to != user then [notes[i]] else []) + Clear(notes[i + 1..], user)
  {
    ClearCons(notes[i..], user);
    assert notes[i..][1..] == notes[i + 1..];
    ConcatAssoc(kept, if notes[i].to != user then [notes[i]] else [], Clear(notes[i + 1..], user));
  }

  /** `updateMany` run over the collection entry by entry. */
  method MarkAllRead(notes: seq<Notification>, user: UserId) returns (r: seq<Notification>)
    ensures r == MarkRead(notes, user)
  {
    r := notes;
    var i := 0;
    while i < |r|
      invariant 0 <= i <= |r| == |notes|
      invariant forall j :: 0 <= j < i ==>
        r[j] == if notes[j].to == user then notes[j].(read := true) else notes[j]
      invariant r[i..] == notes[i..]
    {
      if r[i].to == user {
        r := r[i := r[i].(read := true)];
      }
      i := i + 1;
    }
  }

  /** `deleteMany` run over the collection entry by entry. */
  method ClearAll(notes: seq<Notification>, user: UserId) returns (kept: seq<Notification>)
    ensures kept == Clear(notes, user)
  {
    kept := [];
    var i := 0;
    while i < |notes|
      invariant 0 <= i <= |notes|
      invariant Clear(notes, user) == kept + Clear(notes[i..], user)
    {
      ClearStep(notes, user, i, kept);
      if notes[i].to != user {
        kept := kept + [notes[i]];
      }
      i := i + 1;
    }
    assert notes[i..] == [];
  }

  /** After the mark-read step every notification addressed to the user is read. */
  lemma MarkReadReadsAll(notes: seq<Notification>, user: UserId)
    ensures forall n :: n in Listing(MarkRead(notes, user), user) ==> n.read
    ensures |Listing(MarkRead(notes, user), user)| == |Listing(notes, user)|
  {
    var m := MarkRead(notes, user);
    forall n | n in Listing(m, user)
      ensures n.read
    {
      var i :| 0 <= i < |m| && m[i] == n;
    }
    FilterCount(notes, m, user);
  }

  /** Mark-read keeps, position by position, which notifications are the user's. */
  lemma {:induction false} FilterCount(notes: seq<Notification>, m: seq<Notification>, user: UserId)
    requires |m| == |notes|
    requires forall i :: 0 <= i < |m| ==> m[i].to == notes[i].to
    ensures |Filter(m, (n: Notification) => n.to == user)| == |Filter(notes, (n: Notification) => n.to == user)|
  {
    if notes != [] {
      FilterCount(notes[1..], m[1..], user);
    }
  }

  /** Mark-read and delete leave the notifications of every other user as they were. */
  lemma {:induction false} MarkReadKeepsOthers(notes: seq<Notification>, user: UserId, other: UserId)
    requires other != user
    ensures Filter(MarkRead(notes, user), (n: Notification) => n.to == other)
         == Filter(notes, (n: Notification) => n.to == other)
    ensures Listing(MarkRead(notes, user), other) == Listing(notes, other)
  {
    if notes != [] {
      MarkReadKeepsOthers(notes[1..], user, other);
      assert MarkRead(notes, user)[1..] == MarkRead(notes[1..], user);
    }
  }

  lemma {:induction false} ClearKeepsOthers(notes: seq<Notification>, user: UserId, other: UserId)
    requires other != user
    ensures Filter(Clear(notes, user), (n: Notification) => n.to == other)
         == Filter(notes, (n: Notification) => n.to == other)
    ensures Listing(Clear(notes, user), other) == Listing(notes, other)
  {
    if notes != [] {
      ClearKeepsOthers(notes[1..], user, other);
    }
  }

  /** After a clear, the user's listing is empty. */
  lemma ClearThenListIsEmpty(notes: seq<Notification>, user: UserId)
    ensures Listing(Clear(notes, user), user) == []
  {
  }
}

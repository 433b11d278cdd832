/** The message pool: an append-only list of messages, and the view of it
    that one participant gets (what they received and what they sent). */
module Ledger {
  import opened GameTypes

  /** A message is visible to r when r is among its receivers or sent it. */
  predicate Visible(m: Message, r: string)
  {
    r in m.receiver || m.sender == r
  }

  /** The receivers for which the pool answers with everything: no name
      at all, or the empty name (both are false in a truth test). */
  predicate Falsy(receiver: Option<string>)
  {
    receiver.None? || receiver.value == ""
  }

  /** The messages of ms visible to r, in the order of ms. */
  function Filter(ms: seq<Message>, r: string): (f: seq<Message>)
    ensures |f| <= |ms|
    ensures forall m :: m in f ==> m in ms && Visible(m, r)
  {
    if ms == [] then []
    else
      var init := Filter(ms[..|ms| - 1], r);
      var last := ms[|ms| - 1];
      assert forall m :: m in ms[..|ms| - 1] ==> m in ms;
      if Visible(last, r) then init + [last] else init
  }

  /** What a query for receiver returns on a pool holding ms. */
  function History(ms: seq<Message>, receiver: Option<string>): (h: seq<Message>)
    ensures |h| <= |ms|
    ensures forall m :: m in h ==> m in ms
    ensures Falsy(receiver) ==> h == ms
  {
    if Falsy(receiver) then ms else Filter(ms, receiver.value)
  }

  /** Positions of the messages of ms visible to r, in increasing order,
      and every such position. */
  ghost function VisibleIndices(ms: seq<Message>, r: string): (idx: seq<nat>)
    ensures forall k :: 0 <= k < |idx| ==> idx[k] < |ms| && Visible(ms[idx[k]], r)
    ensures forall k, l :: 0 <= k < l < |idx| ==> idx[k] < idx[l]
    ensures forall j :: 0 <= j < |ms| && Visible(ms[j], r) ==> j in idx
  {
    if ms == [] then []
    else
      var n := |ms| - 1;
      var init := VisibleIndices(ms[..n], r);
      if Visible(ms[n], r) then init + [n] else init
  }

  /** Filter keeps exactly the visible messages and keeps them in order:
      its k-th element is the message at the k-th visible position. */
  lemma {:induction false} FilterIsOrderedSubsequence(ms: seq<Message>, r: string)
    ensures |Filter(ms, r)| == |VisibleIndices(ms, r)|
    ensures forall k :: 0 <= k < |Filter(ms, r)| ==> Filter(ms, r)[k] == ms[VisibleIndices(ms, r)[k]]
  {
    if ms != [] {
      var n := |ms| - 1;
      FilterIsOrderedSubsequence(ms[..n], r);
    }
  }

  /** Filter is complete as well as sound: a message is in the view of r
      exactly when it is in the pool and visible to r. */
  lemma {:induction false} FilterMembership(ms: seq<Message>, r: string, m: Message)
    ensures m in Filter(ms, r) <==> m in ms && Visible(m, r)
  {
    if ms != [] {
      var n := |ms| - 1;
      FilterMembership(ms[..n], r, m);
      assert ms == ms[..n] + [ms[n]];
    }
  }

  /** Views distribute over concatenation: appending to the pool only
      appends to every participant's view. */
  lemma {:induction false} FilterAppend(ms: seq<Message>, extra: seq<Message>, r: string)
    ensures Filter(ms + extra, r) == Filter(ms, r) + Filter(extra, r)
  {
    if extra == [] {
      assert ms + extra == ms;
    } else {
      var n := |extra| - 1;
      assert (ms + extra)[..|ms + extra| - 1] == ms + extra[..n];
      FilterAppend(ms, extra[..n], r);
    }
  }

  /** Filtering a view again for the same participant changes nothing. */
  lemma {:induction false} FilterIdempotent(ms: seq<Message>, r: string)
    ensures Filter(Filter(ms, r), r) == Filter(ms, r)
  {
    if ms != [] {
      var n := |ms| - 1;
      FilterIdempotent(ms[..n], r);
      var init := Filter(ms[..n], r);
      if Visible(ms[n], r) {
        FilterAppend(init, [ms[n]], r);
        assert Filter([ms[n]], r) == [ms[n]] by {
          assert [ms[n]][..0] == [];
        }
      }
    }
  }

  /** Adding a message extends each view by that message when it is
      visible to the viewer (or the query is unfiltered), and by nothing
      otherwise. */
  lemma HistoryAfterAdd(ms: seq<Message>, m: Message, receiver: Option<string>)
    ensures History(ms + [m], receiver)
         == History(ms, receiver) + (if Falsy(receiver) || Visible(m, receiver.value) then [m] else [])
  {
  }

  /** For a named participant the view is exactly the messages they
      received or sent: a sender always sees their own messages, and a
      message neither addressed to nor sent by them never shows. */
  lemma HistoryMembership(ms: seq<Message>, r: string, m: Message)
    requires r != ""
    ensures m in History(ms, Some(r)) <==> m in ms && (r in m.receiver || m.sender == r)
  {
    FilterMembership(ms, r, m);
  }

  /** A private message (addressed only to its sender) shows in exactly one
      named participant's view: the sender's. */
  lemma PrivateMessageVisibility(ms: seq<Message>, m: Message, r: string)
    requires m.receiver == [m.sender]
    requires r != ""
    ensures m in History(ms + [m], Some(r)) <==> r == m.sender
  {
  }

  /** The message pool. `messages` is the list the pool appends to. */
  class MessagePool {
    var messages: seq<Message>

    /** A pool holding the given messages, or an empty pool when none (or
        an empty list) is given. */
    constructor (initial: Option<seq<Message>>)
      ensures initial.None? ==> messages == []
      ensures initial.Some? ==> messages == initial.value
    {
      messages := if initial.None? then [] else initial.value;
    }

    /** Appends one message at the end; the earlier messages are untouched. */
    method AddMessage(sender: string, message: string, receiver: seq<string>)
      modifies this
      ensures messages == old(messages) + [Message(sender, message, receiver)]
      ensures |messages| == |old(messages)| + 1
      ensures messages[..|old(messages)|] == old(messages)
    {
      messages := messages + [Message(sender, message, receiver)];
    }

    /** The messages visible to receiver, in insertion order; the whole
        pool when receiver is absent or empty. The pool is not changed. */
    method GetMessage(receiver: Option<string>) returns (result: seq<Message>)
      ensures result == History(messages, receiver)
    {
      if Falsy(receiver) {
        return messages;
      }
      var r := receiver.value;
      result := [];
      for i := 0 to |messages|
        invariant result == Filter(messages[..i], r)
      {
        var m := messages[i];
        assert messages[..i + 1][..i] == messages[..i];
        if r in m.receiver || m.sender == r {
          result := result + [m];
        }
      }
      assert messages[..|messages|] == messages;
    }
  }
}

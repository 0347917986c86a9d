/** Window message listeners, which may ask to be removed while they answer. */
module Listeners {
  import opened Common

  // What a listener answers: perhaps a reply, or that it wants to be removed.
  datatype Answer = Reply(value: Option<int>) | RemoveMe

  // The listeners that did not ask for removal, in their order.
  function Kept<L>(listeners: seq<L>, answers: seq<Answer>): seq<L>
    requires |listeners| == |answers|
  {
    if listeners == [] then []
    else
      var last := |listeners| - 1;
      Kept(listeners[..last], answers[..last]) + (if answers[last].RemoveMe? then [] else [listeners[last]])
  }

  // Exactly the listeners that did not ask for removal stay, in their original order.
  lemma {:induction false} KeptInOrder<L>(listeners: seq<L>, answers: seq<Answer>) returns (at: seq<nat>)
    requires |listeners| == |answers|
    ensures forall k :: k in at <==> 0 <= k < |listeners| && !answers[k].RemoveMe?
    ensures forall i, j :: 0 <= i < j < |at| ==> at[i] < at[j]
    ensures |Kept(listeners, answers)| == |at|
    ensures forall i :: 0 <= i < |at| ==> at[i] < |listeners| && Kept(listeners, answers)[i] == listeners[at[i]]
  {
    at := [];
    if listeners != [] {
      var last := |listeners| - 1;
      at := KeptInOrder(listeners[..last], answers[..last]);
      assert forall i :: 0 <= i < |at| ==> at[i] in at;
      if !answers[last].RemoveMe? { at := at + [last]; }
    }
  }

  ghost predicate IsLatestReply(answers: seq<Answer>, i: nat) {
    && i < |answers| && answers[i].Reply? && answers[i].value.Some?
    && forall j :: i < j < |answers| ==> !(answers[j].Reply? && answers[j].value.Some?)
  }

  class WindowData<L> {
    var listeners: seq<L>

    constructor ()
      ensures listeners == []
    {
      listeners := [];
    }

    method RegisterListener(listener: L)
      modifies this
      ensures listeners == old(listeners) + [listener]
    {
      listeners := listeners + [listener];
    }

    // All listeners are asked, the latest first; answers[i] is what listener i says.
    // Without a reply the window's default procedure is used.
    method HandleDefault(answers: seq<Answer>) returns (result: Option<int>)
      requires |answers| == |listeners|
      modifies this
      ensures listeners == Kept(old(listeners), answers)
      ensures forall i: nat :: IsLatestReply(answers, i) ==> result == answers[i].value
      ensures (forall i :: 0 <= i < |answers| ==> !(answers[i].Reply? && answers[i].value.Some?)) ==> result == None
    {
      result := None;
      var i := |answers|;
      ghost var was := listeners;
      assert was[..i] == was && answers[..i] == answers;
      while i > 0
        invariant i <= |answers| == |was|
        invariant i <= |listeners| && listeners[..i] == was[..i]
        invariant Kept(was[..i], answers[..i]) + listeners[i..] == Kept(was, answers)
        invariant result.None? ==> forall j :: i <= j < |answers| ==> !(answers[j].Reply? && answers[j].value.Some?)
        invariant result.Some? ==>
                    exists j :: i <= j < |answers| && IsLatestReply(answers, j) && result == answers[j].value
      {
        i := i - 1;
        assert was[..i + 1][..i] == was[..i] && answers[..i + 1][..i] == answers[..i];
        assert listeners[i] == was[i] by { assert listeners[..i + 1][i] == was[..i + 1][i]; }
        match answers[i]
        case Reply(o) =>
          if result.None? {
            assert o.Some? ==> IsLatestReply(answers, i);
            result := o;
          }
          assert listeners[i..] == [was[i]] + listeners[i + 1..];
          assert listeners[..i] == was[..i] by { assert listeners[..i + 1][..i] == was[..i + 1][..i]; }
        case RemoveMe =>
          assert listeners[..i] == was[..i] by { assert listeners[..i + 1][..i] == was[..i + 1][..i]; }
          listeners := listeners[..i] + listeners[i + 1..];
      }
      forall k: nat | IsLatestReply(answers, k) ensures result == answers[k].value {
        var j :| 0 <= j < |answers| && IsLatestReply(answers, j) && result == answers[j].value;
        assert j == k;
      }
    }
  }
}

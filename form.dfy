/** The repeatable step sub-form: the list of step units the user fills in. */
module Form {
  import opened Text
  import opened Steps

  /** The unit that "add step" appends: both fields empty. */
  const EmptyUnit := RawEntry("", "")

  class StepForm {
    /** The step units, in the order they appear in the form. */
    var units: seq<RawEntry>

    /** The form keeps at least one step unit. */
    ghost predicate Valid()
      reads this
    {
      |units| >= 1
    }

    /** A form holding the units the page starts with. */
    constructor (initial: seq<RawEntry>)
      ensures units == initial
      ensures Valid() <==> initial != []
    {
      units := initial;
    }

    /** Appends one empty unit at the end of the form. */
    method AddStep()
      modifies this
      ensures units == old(units) + [EmptyUnit]
      ensures Valid()
    {
      units := units + [EmptyUnit];
    }

    /** Removes the unit at position `i`, unless it is the only unit left, in
        which case the removal is refused and the form is left as it was. */
    method RemoveStep(i: nat) returns (removed: bool)
      requires i < |units|
      modifies this
      ensures removed <==> |old(units)| > 1
      ensures removed ==> units == old(units)[..i] + old(units)[i + 1..]
      ensures !removed ==> units == old(units)
      ensures old(Valid()) ==> Valid()
      ensures |units| == if removed then |old(units)| - 1 else |old(units)|
    {
      if |units| > 1 {
        units := units[..i] + units[i + 1..];
        removed := true;
      } else {
        removed := false;
      }
    }
  }

  /** A new empty unit contributes no step: adding one and collecting gives
      the same steps as before. */
  lemma AddedUnitIgnored(units: seq<RawEntry>)
    ensures Collected(units + [EmptyUnit]) == Collected(units)
  {
    assert (units + [EmptyUnit])[..|units|] == units;
    assert Trim("") == "";
  }

  /** Removing the unit `x` that sits between the units `a` and `c`
      renumbers what follows it: the steps collected from `a` are unchanged,
      and each step collected from `c` moves down by one number, from its
      position after `x` to its position right after `a`. */
  lemma RemovalRenumbers(a: seq<RawEntry>, x: RawEntry, c: seq<RawEntry>)
    ensures Collected(a + [x] + c) ==
            Collected(a) + Shifted(Collected([x]), |a|) + Shifted(Collected(c), |a| + 1)
    ensures Collected(a + c) == Collected(a) + Shifted(Collected(c), |a|)
  {
    var ax := a + [x];
    CollectedAppend(ax, c);
    CollectedAppend(a, [x]);
    assert Collected(ax + c) == (Collected(a) + Shifted(Collected([x]), |a|)) + Shifted(Collected(c), |a| + 1);
    CollectedAppend(a, c);
  }
}

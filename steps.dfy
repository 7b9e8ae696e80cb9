/** Collecting the steps of a manual from the units of the step sub-form. */
module Steps {
  import opened Text

  /** One unit of the step sub-form, its two fields as typed. */
  datatype RawEntry = RawEntry(title: string, description: string)

  /** A collected step: its number and its trimmed fields. */
  datatype Step = Step(number: nat, title: string, description: string)

  /** A unit is collected when both trimmed fields are non-empty. */
  predicate Keeps(e: RawEntry)
    ensures Keeps(e) <==> !AllSpace(e.title) && !AllSpace(e.description)
  {
    TrimEmpty(e.title);
    TrimEmpty(e.description);
    Trim(e.title) != [] && Trim(e.description) != []
  }

  /** The step made from the unit at position `k` of the form: it is numbered
      by that position, counted from 1 over the whole form. */
  function StepAt(entries: seq<RawEntry>, k: nat): (r: Step)
    requires k < |entries|
    ensures 1 <= r.number <= |entries|
    ensures Keeps(entries[k]) <==> r.title != [] && r.description != []
  {
    Step(k + 1, Trim(entries[k].title), Trim(entries[k].description))
  }

  /** The steps collected from `entries`, in the order of the form. */
  function Collected(entries: seq<RawEntry>): (r: seq<Step>)
    ensures |r| <= |entries|
    decreases |entries|
  {
    if entries == [] then []
    else
      var init := entries[..|entries| - 1];
      Collected(init) +
        (if Keeps(entries[|entries| - 1]) then [StepAt(entries, |entries| - 1)] else [])
  }

  /** Walks the units in order and appends a step for each unit whose trimmed
      title and description are both non-empty. */
  method CollectSteps(entries: seq<RawEntry>) returns (steps: seq<Step>)
    ensures steps == Collected(entries)
  {
    steps := [];
    var i := 0;
    while i < |entries|
      invariant 0 <= i <= |entries|
      invariant steps == Collected(entries[..i])
    {
      assert entries[..i + 1][..i] == entries[..i];
      var title := Trim(entries[i].title);
      var description := Trim(entries[i].description);
      if title != [] && description != [] {
        steps := steps + [Step(i + 1, title, description)];
      }
      i := i + 1;
    }
    assert entries[..i] == entries;
  }

  /** Every collected step comes from a kept unit, carries that unit's
      trimmed fields, and is numbered by the unit's position in the form. */
  lemma {:induction false} CollectedSound(entries: seq<RawEntry>, j: nat)
    requires j < |Collected(entries)|
    ensures var s := Collected(entries)[j];
            && 1 <= s.number <= |entries|
            && Keeps(entries[s.number - 1])
            && s == StepAt(entries, s.number - 1)
  {
    var init := entries[..|entries| - 1];
    if j < |Collected(init)| {
      CollectedSound(init, j);
      var s := Collected(init)[j];
      assert entries[s.number - 1] == init[s.number - 1];
    }
  }

  /** Step numbers strictly increase along the collected steps. */
  lemma {:induction false} CollectedIncreasing(entries: seq<RawEntry>, i: nat, j: nat)
    requires i < j < |Collected(entries)|
    ensures Collected(entries)[i].number < Collected(entries)[j].number
  {
    var init := entries[..|entries| - 1];
    CollectedSound(init, i);
    if j < |Collected(init)| {
      CollectedIncreasing(init, i, j);
    }
  }

  /** Every kept unit shows up among the collected steps, under its own
      position. */
  lemma {:induction false} CollectedComplete(entries: seq<RawEntry>, k: nat)
    requires k < |entries| && Keeps(entries[k])
    ensures exists j :: 0 <= j < |Collected(entries)| && Collected(entries)[j] == StepAt(entries, k)
  {
    var init := entries[..|entries| - 1];
    if k == |entries| - 1 {
      assert Collected(entries)[|Collected(init)|] == StepAt(entries, k);
    } else {
      assert init[k] == entries[k];
      CollectedComplete(init, k);
      var j :| 0 <= j < |Collected(init)| && Collected(init)[j] == StepAt(init, k);
      assert Collected(entries)[j] == StepAt(entries, k);
    }
  }

  /** A unit is kept if and only if some collected step carries its number. */
  lemma CollectedKeepsExactly(entries: seq<RawEntry>, k: nat)
    requires k < |entries|
    ensures Keeps(entries[k]) <==>
            exists j :: 0 <= j < |Collected(entries)| && Collected(entries)[j].number == k + 1
  {
    if Keeps(entries[k]) {
      CollectedComplete(entries, k);
    }
    forall j | 0 <= j < |Collected(entries)| && Collected(entries)[j].number == k + 1
      ensures Keeps(entries[k])
    {
      CollectedSound(entries, j);
    }
  }

  /** No step is collected exactly when no unit is kept. */
  lemma CollectedEmpty(entries: seq<RawEntry>)
    ensures Collected(entries) == [] <==> forall k :: 0 <= k < |entries| ==> !Keeps(entries[k])
  {
    forall k | 0 <= k < |entries| && Keeps(entries[k])
      ensures Collected(entries) != []
    {
      CollectedComplete(entries, k);
    }
    if Collected(entries) != [] {
      CollectedSound(entries, 0);
    }
  }

  /** The steps of `entries`, renumbered as if `offset` units came before. */
  function Shifted(steps: seq<Step>, offset: nat): (r: seq<Step>)
    ensures |r| == |steps|
  {
    seq(|steps|, i requires 0 <= i < |steps| => steps[i].(number := steps[i].number + offset))
  }

  /** Collecting two stretches of the form is collecting each on its own, the
      steps of the second renumbered after the units of the first. */
  lemma {:induction false} CollectedAppend(a: seq<RawEntry>, b: seq<RawEntry>)
    ensures Collected(a + b) == Collected(a) + Shifted(Collected(b), |a|)
    decreases |b|
  {
    if b == [] {
      assert a + b == a;
    } else {
      var b' := b[..|b| - 1];
      assert (a + b)[..|a + b| - 1] == a + b';
      assert (a + b)[|a + b| - 1] == b[|b| - 1];
      CollectedAppend(a, b');
      var x := b[|b| - 1];
      ShiftedAppend(Collected(b'), if Keeps(x) then [StepAt(b, |b| - 1)] else [], |a|);
      if Keeps(x) {
        var y := StepAt(b, |b| - 1);
        assert Shifted([y], |a|)[0] == y.(number := y.number + |a|);
        assert y.(number := y.number + |a|) == StepAt(a + b, |a + b| - 1);
      }
    }
  }

  lemma ShiftedAppend(s: seq<Step>, t: seq<Step>, offset: nat)
    ensures Shifted(s + t, offset) == Shifted(s, offset) + Shifted(t, offset)
  {
    var l, r := Shifted(s + t, offset), Shifted(s, offset) + Shifted(t, offset);
    forall i | 0 <= i < |l| ensures l[i] == r[i] {
      if i < |s| {
        assert (s + t)[i] == s[i];
      } else {
        assert (s + t)[i] == t[i - |s|];
      }
    }
  }

  /** Of three units whose middle one has a blank title, the first and the
      last are collected as steps 1 and 3: the numbers are not made dense. */
  lemma CollectedGap(a: RawEntry, b: RawEntry, c: RawEntry)
    requires Keeps(a) && Trim(b.title) == [] && Keeps(c)
    ensures Collected([a, b, c]) ==
            [Step(1, Trim(a.title), Trim(a.description)), Step(3, Trim(c.title), Trim(c.description))]
  {
    assert [a][..0] == [];
    assert Collected([a]) == [StepAt([a], 0)];
    assert [a, b][..1] == [a];
    assert Collected([a, b]) == Collected([a]);
    assert [a, b, c][..2] == [a, b];
    assert Collected([a, b, c]) == Collected([a, b]) + [StepAt([a, b, c], 2)];
  }
}

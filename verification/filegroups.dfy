/**
 * The extra files chosen for a launch: the `file<digits>` lines of the
 * save section, split into data archives (passed after `-file`) and
 * DeHackEd/BEX patches (passed after `-deh`).
 */
module FileGroups {
  import opened Strings
  import opened Config

  /** The key pattern `^file[0-9]+$`. */
  predicate IsFileKey(key: string) {
    |key| >= 5 && key[..4] == "file" && AllDigits(key[4..])
  }

  /** The values of the `file<digits>` lines, in section order. */
  function FileValues(sec: Section): (vs: seq<string>)
    ensures |vs| <= |sec|
    ensures forall v :: v in vs <==> exists i :: 0 <= i < |sec| && IsFileKey(sec[i].key) && sec[i].value == v
    decreases |sec|
  {
    if |sec| == 0 then []
    else
      var front := sec[..|sec| - 1];
      var last := sec[|sec| - 1];
      assert forall i :: 0 <= i < |sec| - 1 ==> sec[i] == front[i];
      FileValues(front) + (if IsFileKey(last.key) then [last.value] else [])
  }

  /** The scan reads the lines one at a time, in order: one value per
      `file<digits>` line, none for any other line. */
  lemma {:induction false} FileValuesAppend(a: Section, b: Section)
    ensures FileValues(a + b) == FileValues(a) + FileValues(b)
    decreases |b|
  {
    if |b| == 0 {
      assert a + b == a;
    } else {
      var ab, front, last := a + b, b[..|b| - 1], b[|b| - 1];
      var step := if IsFileKey(last.key) then [last.value] else [];
      assert ab[..|ab| - 1] == a + front;
      assert ab[|ab| - 1] == last;
      assert FileValues(ab) == FileValues(a + front) + step;
      assert FileValues(b) == FileValues(front) + step;
      FileValuesAppend(a, front);
    }
  }

  /** A single line contributes its value exactly when its key is a file key. */
  lemma FileValuesOfLine(l: Line)
    ensures FileValues([l]) == if IsFileKey(l.key) then [l.value] else []
  {
    assert [l][..0] == [];
  }

  /** A name ending in ".deh" or ".bex", in any letter case. */
  predicate IsPatchName(v: string) {
    EndsWithIgnoreCase(v, ".deh") || EndsWithIgnoreCase(v, ".bex")
  }

  /** Splits the names into (archives, patches), each in scan order. Every
      name lands in exactly one group, on the side its suffix selects. */
  function Partition(vs: seq<string>): (seq<string>, seq<string>)
    decreases |vs|
  {
    if |vs| == 0 then ([], [])
    else
      var r := Partition(vs[..|vs| - 1]);
      var v := vs[|vs| - 1];
      if IsPatchName(v) then (r.0, r.1 + [v]) else (r.0 + [v], r.1)
  }

  /** Every name lands in exactly one group, on the side its suffix selects. */
  lemma {:induction false} PartitionSpec(vs: seq<string>)
    ensures var (pwads, patches) := Partition(vs);
            && multiset(pwads) + multiset(patches) == multiset(vs)
            && (forall k :: 0 <= k < |pwads| ==> !IsPatchName(pwads[k]))
            && (forall k :: 0 <= k < |patches| ==> IsPatchName(patches[k]))
    decreases |vs|
  {
    if |vs| > 0 {
      var front := vs[..|vs| - 1];
      assert vs == front + [vs[|vs| - 1]];
      PartitionSpec(front);
    }
  }

  /** Partitioning is compositional: the groups of a concatenation are the
      concatenated groups, so scan order is kept inside each group. */
  lemma {:induction false} PartitionAppend(a: seq<string>, b: seq<string>)
    ensures Partition(a + b) == (Partition(a).0 + Partition(b).0, Partition(a).1 + Partition(b).1)
    decreases |b|
  {
    if |b| == 0 {
      assert a + b == a;
      assert Partition(b) == ([], []);
      assert Partition(a).0 + [] == Partition(a).0 && Partition(a).1 + [] == Partition(a).1;
    } else {
      var front := b[..|b| - 1];
      assert (a + b)[..|a + b| - 1] == a + front;
      assert (a + b)[|a + b| - 1] == b[|b| - 1];
      var v := b[|b| - 1];
      PartitionAppend(a, front);
      var pa, pf := Partition(a), Partition(front);
      assert b[..|b| - 1] == front;
      if IsPatchName(v) {
        assert Partition(b) == (pf.0, pf.1 + [v]);
        assert Partition(a + b) == (pa.0 + pf.0, pa.1 + pf.1 + [v]);
        assert pa.1 + pf.1 + [v] == pa.1 + (pf.1 + [v]);
      } else {
        assert Partition(b) == (pf.0 + [v], pf.1);
        assert Partition(a + b) == (pa.0 + pf.0 + [v], pa.1 + pf.1);
        assert pa.0 + pf.0 + [v] == pa.0 + (pf.0 + [v]);
      }
    }
  }

}

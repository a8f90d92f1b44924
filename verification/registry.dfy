/**
 * Indexed name/file pairs inside one section: a line `p<d>n=<name>` is
 * paired with the line `p<d>f=<path>` that shares its digits (`i<d>n` /
 * `i<d>f` for IWADs). This is how both the source port and the IWAD chosen
 * by name are turned into a path.
 */
module Registry {
  import opened Wrappers
  import opened Strings
  import opened Config

  /** The key pattern `^<prefix>[0-9]+<suffix>$`. */
  predicate IsIndexKey(prefix: char, suffix: char, key: string) {
    |key| >= 3 && key[0] == prefix && key[|key| - 1] == suffix && AllDigits(key[1..|key| - 1])
  }

  /** The file key paired with a name key: first and last character
      stripped, then `<prefix>` before and `f` after the index. */
  function PairedFileKey(prefix: char, nameKey: string): (k: string)
    requires IsIndexKey(prefix, 'n', nameKey)
    ensures IsIndexKey(prefix, 'f', k)
    ensures k[1..|k| - 1] == nameKey[1..|nameKey| - 1]
  {
    [prefix] + nameKey[1..|nameKey| - 1] + ['f']
  }

  /** Line `j` is a name line whose paired file key occurs exactly once. */
  predicate HasUniqueFile(sec: Section, prefix: char, j: int) {
    && 0 <= j < |sec|
    && IsIndexKey(prefix, 'n', sec[j].key)
    && |ValuesOf(sec, PairedFileKey(prefix, sec[j].key))| == 1
  }

  /** The name line `j` has a unique file exactly when one and only one
      line of the section carries its paired file key. */
  lemma UniqueFileIsOneLine(sec: Section, prefix: char, j: int)
    requires 0 <= j < |sec| && IsIndexKey(prefix, 'n', sec[j].key)
    ensures HasUniqueFile(sec, prefix, j) <==> exists i :: OnlyLineWithKey(sec, PairedFileKey(prefix, sec[j].key), i)
  {
    ValuesOfSpec(sec, PairedFileKey(prefix, sec[j].key));
  }

  /** The path stored under the file key paired with name line `j`. */
  function PairedFile(sec: Section, prefix: char, j: int): string
    requires HasUniqueFile(sec, prefix, j)
  {
    ValuesOf(sec, PairedFileKey(prefix, sec[j].key))[0]
  }

  /** Line `j` names `name` and resolves to a file. */
  predicate Resolves(sec: Section, prefix: char, name: string, j: int) {
    HasUniqueFile(sec, prefix, j) && sec[j].value == name
  }

  /** `j` is the first line, in section order, that resolves `name`. */
  predicate FirstResolving(sec: Section, prefix: char, name: string, j: int) {
    Resolves(sec, prefix, name, j) && forall m :: 0 <= m < j ==> !Resolves(sec, prefix, name, m)
  }

  /** `path` is the file of some name line that resolves `name`. */
  predicate IsResolvedPath(sec: Section, prefix: char, name: string, path: string) {
    exists j :: 0 <= j < |sec| && Resolves(sec, prefix, name, j) && PairedFile(sec, prefix, j) == path
  }

  /** The files of all resolving name lines from position `i` on, in order;
      the scan does not stop at the first match. */
  function ResolveFrom(sec: Section, prefix: char, name: string, i: nat): seq<string>
    requires i <= |sec|
    decreases |sec| - i
  {
    if i == |sec| then []
    else if Resolves(sec, prefix, name, i) then [PairedFile(sec, prefix, i)] + ResolveFrom(sec, prefix, name, i + 1)
    else ResolveFrom(sec, prefix, name, i + 1)
  }

  /** How many of the first `n` lines resolve `name`. */
  function ResolvingCount(sec: Section, prefix: char, name: string, n: nat): nat
    requires n <= |sec|
  {
    if n == 0 then 0
    else ResolvingCount(sec, prefix, name, n - 1) + (if Resolves(sec, prefix, name, n - 1) then 1 else 0)
  }

  lemma {:induction false} ResolvingCountMonotone(sec: Section, prefix: char, name: string, m: nat, n: nat)
    requires m <= n <= |sec|
    ensures ResolvingCount(sec, prefix, name, m) <= ResolvingCount(sec, prefix, name, n)
    decreases n - m
  {
    if m < n {
      ResolvingCountMonotone(sec, prefix, name, m, n - 1);
    }
  }

  /** Every resolving name line, in section order, contributes its file:
      there are as many files as resolving lines, and the file of the k-th
      resolving line (counting from 0) is at position k. */
  function ResolveAll(sec: Section, prefix: char, name: string): (paths: seq<string>)
    ensures |paths| <= |sec|
    ensures forall path :: path in paths <==> IsResolvedPath(sec, prefix, name, path)
    ensures |paths| == 0 <==> forall j :: 0 <= j < |sec| ==> !Resolves(sec, prefix, name, j)
    ensures |paths| == ResolvingCount(sec, prefix, name, |sec|)
    ensures forall j :: Resolves(sec, prefix, name, j) ==>
              ResolvingCount(sec, prefix, name, j) < |paths|
              && paths[ResolvingCount(sec, prefix, name, j)] == PairedFile(sec, prefix, j)
  {
    ResolveFromSpec(sec, prefix, name, 0);
    ResolveFromCount(sec, prefix, name, 0);
    ResolveFrom(sec, prefix, name, 0)
  }

  /** The scan from position `i` holds one file per resolving line at or
      after `i`, each at the place its count gives it. */
  lemma {:induction false} ResolveFromCount(sec: Section, prefix: char, name: string, i: nat)
    requires i <= |sec|
    ensures |ResolveFrom(sec, prefix, name, i)| + ResolvingCount(sec, prefix, name, i) == ResolvingCount(sec, prefix, name, |sec|)
    ensures forall j :: i <= j && Resolves(sec, prefix, name, j) ==>
              && ResolvingCount(sec, prefix, name, i) <= ResolvingCount(sec, prefix, name, j)
              && ResolvingCount(sec, prefix, name, j) - ResolvingCount(sec, prefix, name, i) < |ResolveFrom(sec, prefix, name, i)|
              && ResolveFrom(sec, prefix, name, i)[ResolvingCount(sec, prefix, name, j) - ResolvingCount(sec, prefix, name, i)]
                 == PairedFile(sec, prefix, j)
    decreases |sec| - i
  {
    if i < |sec| {
      ResolveFromCount(sec, prefix, name, i + 1);
      var all, rest := ResolveFrom(sec, prefix, name, i), ResolveFrom(sec, prefix, name, i + 1);
      var ci, cn := ResolvingCount(sec, prefix, name, i), ResolvingCount(sec, prefix, name, i + 1);
      forall j | i <= j && Resolves(sec, prefix, name, j)
        ensures && ci <= ResolvingCount(sec, prefix, name, j)
                && ResolvingCount(sec, prefix, name, j) - ci < |all|
                && all[ResolvingCount(sec, prefix, name, j) - ci] == PairedFile(sec, prefix, j)
      {
        if j > i {
          ResolvingCountMonotone(sec, prefix, name, i + 1, j);
          if Resolves(sec, prefix, name, i) {
            assert all[ResolvingCount(sec, prefix, name, j) - ci] == rest[ResolvingCount(sec, prefix, name, j) - cn];
          }
        }
      }
    }
  }

  lemma {:induction false} ResolveFromSpec(sec: Section, prefix: char, name: string, i: nat)
    requires i <= |sec|
    ensures |ResolveFrom(sec, prefix, name, i)| <= |sec| - i
    ensures forall path :: path in ResolveFrom(sec, prefix, name, i) <==>
              exists j :: i <= j && Resolves(sec, prefix, name, j) && PairedFile(sec, prefix, j) == path
    ensures |ResolveFrom(sec, prefix, name, i)| == 0 <==> forall j :: i <= j < |sec| ==> !Resolves(sec, prefix, name, j)
    decreases |sec| - i
  {
    if i < |sec| {
      ResolveFromSpec(sec, prefix, name, i + 1);
      var all, rest := ResolveFrom(sec, prefix, name, i), ResolveFrom(sec, prefix, name, i + 1);
      forall path | path in all
        ensures exists j :: i <= j && Resolves(sec, prefix, name, j) && PairedFile(sec, prefix, j) == path
      {
        if path !in rest {
          assert Resolves(sec, prefix, name, i) && PairedFile(sec, prefix, i) == path;
        }
      }
      forall j | i <= j && Resolves(sec, prefix, name, j)
        ensures PairedFile(sec, prefix, j) in all
      {
        if j > i {
          assert PairedFile(sec, prefix, j) in rest;
        }
      }
    }
  }

  /** The scan of `getExecutable`: the file of the first resolving name
      line from position `i` on, or nothing. */
  function ResolveFirstFrom(sec: Section, prefix: char, name: string, i: nat): Option<string>
    requires i <= |sec|
    decreases |sec| - i
  {
    if i == |sec| then None
    else if Resolves(sec, prefix, name, i) then Some(PairedFile(sec, prefix, i))
    else ResolveFirstFrom(sec, prefix, name, i + 1)
  }

  lemma {:induction false} ResolveFirstFromSpec(sec: Section, prefix: char, name: string, i: nat)
    requires i <= |sec|
    ensures var r := ResolveFirstFrom(sec, prefix, name, i);
            && (r.None? <==> forall j :: i <= j < |sec| ==> !Resolves(sec, prefix, name, j))
            && (forall j :: i <= j && FirstResolvingFrom(sec, prefix, name, i, j) ==> r == Some(PairedFile(sec, prefix, j)))
    decreases |sec| - i
  {
    if i < |sec| && !Resolves(sec, prefix, name, i) {
      ResolveFirstFromSpec(sec, prefix, name, i + 1);
      assert forall j :: i <= j && FirstResolvingFrom(sec, prefix, name, i, j) ==> i + 1 <= j && FirstResolvingFrom(sec, prefix, name, i + 1, j);
    }
  }

  /** `j` is the first resolving line at or after position `i`. */
  predicate FirstResolvingFrom(sec: Section, prefix: char, name: string, i: int, j: int) {
    Resolves(sec, prefix, name, j) && forall m :: i <= m < j ==> !Resolves(sec, prefix, name, m)
  }

  /** The file of the first name line, in section order, that resolves
      `name`; nothing exactly when no line does. */
  function ResolveFirst(sec: Section, prefix: char, name: string): (r: Option<string>)
    ensures r.None? <==> forall j :: 0 <= j < |sec| ==> !Resolves(sec, prefix, name, j)
    ensures forall j :: FirstResolving(sec, prefix, name, j) ==> r == Some(PairedFile(sec, prefix, j))
  {
    ResolveFirstFromSpec(sec, prefix, name, 0);
    assert forall j :: FirstResolving(sec, prefix, name, j) ==> 0 <= j && FirstResolvingFrom(sec, prefix, name, 0, j);
    ResolveFirstFrom(sec, prefix, name, 0)
  }

  /** The port lookup (stop at the first match) and the IWAD lookup (collect
      every match) perform the same join: the first is the head of the second. */
  lemma {:induction false} FirstIsHeadOfAll(sec: Section, prefix: char, name: string, i: nat)
    requires i <= |sec|
    ensures var all := ResolveFrom(sec, prefix, name, i);
            ResolveFirstFrom(sec, prefix, name, i) == (if |all| > 0 then Some(all[0]) else None)
    decreases |sec| - i
  {
    if i == |sec| {
    } else if Resolves(sec, prefix, name, i) {
      assert ResolveFrom(sec, prefix, name, i)[0] == PairedFile(sec, prefix, i);
    } else {
      FirstIsHeadOfAll(sec, prefix, name, i + 1);
      assert ResolveFrom(sec, prefix, name, i) == ResolveFrom(sec, prefix, name, i + 1);
      assert ResolveFirstFrom(sec, prefix, name, i) == ResolveFirstFrom(sec, prefix, name, i + 1);
    }
  }
}

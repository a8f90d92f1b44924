/**
 * The vocabulary of the engine's command line as the launcher uses it. An
 * `Arg` is one decision of the builder (an IWAD, a skill level, a group of
 * files, ...); `Render` spells it as tokens, and `Parse` reads a token list
 * back into decisions.
 */
module Arguments {
  import opened Wrappers
  import opened Decimal

  datatype Arg =
    | Iwad(path: string)
    | Skill(level: string)
    | Warp(mapName: string)
    | DmFlags(flags: string)
    | DmFlags2(flags: string)
    | Files(pwads: seq<string>)
    | Dehacked(patches: seq<string>)
    | Deathmatch
    | Host(players: nat)
    | Join(address: string)
    | FragLimit(limit: string)
    | NetPort(port: string)
    | ExtraTic
    | NetMode(mode: string)
    | Dup(ticks: string)

  /** Position of each kind of decision in the argument list. `Host` and
      `Join` share a slot: they are alternatives. */
  function Rank(a: Arg): nat {
    match a
    case Iwad(_) => 0
    case Skill(_) => 1
    case Warp(_) => 2
    case DmFlags(_) => 3
    case DmFlags2(_) => 4
    case Files(_) => 5
    case Dehacked(_) => 6
    case Deathmatch => 7
    case Host(_) => 8
    case Join(_) => 8
    case FragLimit(_) => 9
    case NetPort(_) => 10
    case ExtraTic => 11
    case NetMode(_) => 12
    case Dup(_) => 13
  }

  /** Decisions appear in rank order; only `-iwad` may repeat. */
  predicate Ordered(p: seq<Arg>) {
    forall i, j :: 0 <= i < j < |p| ==> Rank(p[i]) < Rank(p[j]) || (p[i].Iwad? && p[j].Iwad?)
  }

  /** Every decision of `p` has a rank in `lo..hi`. */
  predicate RanksWithin(p: seq<Arg>, lo: nat, hi: nat) {
    forall i :: 0 <= i < |p| ==> lo <= Rank(p[i]) <= hi
  }

  /** Two ordered lists whose rank bands do not overlap concatenate to an
      ordered list spanning both bands. */
  lemma OrderedAppend(p: seq<Arg>, q: seq<Arg>, lo: nat, mid: nat, hi: nat)
    requires lo <= mid < hi
    requires Ordered(p) && RanksWithin(p, lo, mid)
    requires Ordered(q) && RanksWithin(q, mid + 1, hi)
    ensures Ordered(p + q) && RanksWithin(p + q, lo, hi)
  {
    var r := p + q;
    forall i | 0 <= i < |r| ensures lo <= Rank(r[i]) <= hi {
      if i < |p| { assert r[i] == p[i]; } else { assert r[i] == q[i - |p|]; }
    }
    forall i, j | 0 <= i < j < |r|
      ensures Rank(r[i]) < Rank(r[j]) || (r[i].Iwad? && r[j].Iwad?)
    {
      if j < |p| {
        assert r[i] == p[i] && r[j] == p[j];
      } else if i >= |p| {
        assert r[i] == q[i - |p|] && r[j] == q[j - |p|];
      } else {
        assert r[i] == p[i] && r[j] == q[j - |p|];
      }
    }
  }

  /** An ordered list never holds both a `-host` and a `-join`. */
  lemma OrderedExcludesHostAndJoin(p: seq<Arg>, i: int, j: int)
    requires Ordered(p)
    requires 0 <= i < |p| && 0 <= j < |p|
    ensures !(p[i].Host? && p[j].Join?)
  {
    if i < j {
      assert Rank(p[i]) < Rank(p[j]) || (p[i].Iwad? && p[j].Iwad?);
    } else if j < i {
      assert Rank(p[j]) < Rank(p[i]) || (p[j].Iwad? && p[i].Iwad?);
    }
  }

  const FlagTokens: set<string> := {
    "-iwad", "-skill", "+map", "+set", "-file", "-deh", "-deathmath",
    "-host", "-join", "-port", "-extratic", "-netmode", "-dup"
  }

  predicate IsFlag(t: string) {
    t in FlagTokens
  }

  /** The tokens of one decision, literally as the engine expects them
      (including the spelling `-deathmath`). */
  function Render(a: Arg): (ts: seq<string>)
    ensures |ts| >= 1 && IsFlag(ts[0])
  {
    match a
    case Iwad(path) => ["-iwad", path]
    case Skill(level) => ["-skill", level]
    case Warp(mapName) => ["+map", mapName]
    case DmFlags(flags) => ["+set", "dmflags", flags]
    case DmFlags2(flags) => ["+set", "dmflags2", flags]
    case Files(pwads) => ["-file"] + pwads
    case Dehacked(patches) => ["-deh"] + patches
    case Deathmatch => ["-deathmath"]
    case Host(players) => ["-host", NatToDecimal(players)]
    case Join(address) => ["-join", address]
    case FragLimit(limit) => ["+set", "fraglimit", limit]
    case NetPort(port) => ["-port", port]
    case ExtraTic => ["-extratic"]
    case NetMode(mode) => ["-netmode", mode]
    case Dup(ticks) => ["-dup", ticks]
  }

  /** The tokens of a whole plan, in order. A non-empty plan starts with a flag. */
  function RenderAll(p: seq<Arg>): (ts: seq<string>)
    ensures |p| > 0 ==> |ts| > 0 && IsFlag(ts[0])
  {
    if |p| == 0 then [] else Render(p[0]) + RenderAll(p[1..])
  }

  lemma {:induction false} RenderAllAppend(p: seq<Arg>, q: seq<Arg>)
    ensures RenderAll(p + q) == RenderAll(p) + RenderAll(q)
  {
    if |p| > 0 {
      assert (p + q)[1..] == p[1..] + q;
      RenderAllAppend(p[1..], q);
    } else {
      assert p + q == q;
    }
  }

  /** A decision that `Parse` can read back: file groups are non-empty and
      hold no flag token, and a host count survives `toInt`. */
  predicate WellFormedArg(a: Arg) {
    match a
    case Files(names) => |names| > 0 && forall k :: 0 <= k < |names| ==> !IsFlag(names[k])
    case Dehacked(names) => |names| > 0 && forall k :: 0 <= k < |names| ==> !IsFlag(names[k])
    case Host(players) => 0 < players <= IntMax
    case _ => true
  }

  predicate WellFormed(p: seq<Arg>) {
    forall i :: 0 <= i < |p| ==> WellFormedArg(p[i])
  }

  lemma WellFormedAppend(p: seq<Arg>, q: seq<Arg>)
    requires WellFormed(p) && WellFormed(q)
    ensures WellFormed(p + q)
  {
    forall i | 0 <= i < |p + q| ensures WellFormedArg((p + q)[i]) {
      if i < |p| { assert (p + q)[i] == p[i]; } else { assert (p + q)[i] == q[i - |p|]; }
    }
  }

  /** Number of leading tokens that are not flags: the members of a
      `-file` or `-deh` group. */
  function RunLength(ts: seq<string>): (n: nat)
    ensures n <= |ts|
    ensures forall k :: 0 <= k < n ==> !IsFlag(ts[k])
    ensures n < |ts| ==> IsFlag(ts[n])
  {
    if |ts| == 0 || IsFlag(ts[0]) then 0 else 1 + RunLength(ts[1..])
  }

  lemma {:induction false} RunLengthOfGroup(names: seq<string>, rest: seq<string>)
    requires forall k :: 0 <= k < |names| ==> !IsFlag(names[k])
    requires |rest| == 0 || IsFlag(rest[0])
    ensures RunLength(names + rest) == |names|
  {
    if |names| > 0 {
      assert (names + rest)[1..] == names[1..] + rest;
      RunLengthOfGroup(names[1..], rest);
    } else {
      assert names + rest == rest;
    }
  }

  function Cons(a: Arg, rest: Option<seq<Arg>>): Option<seq<Arg>> {
    match rest
    case None => None
    case Some(p) => Some([a] + p)
  }

  /** A flag that takes exactly one value. */
  function Unary(flag: string, v: string): Option<Arg> {
    if flag == "-iwad" then Some(Iwad(v))
    else if flag == "-skill" then Some(Skill(v))
    else if flag == "+map" then Some(Warp(v))
    else if flag == "-join" then Some(Join(v))
    else if flag == "-port" then Some(NetPort(v))
    else if flag == "-netmode" then Some(NetMode(v))
    else if flag == "-dup" then Some(Dup(v))
    else if flag == "-host" && ParseInt(v) > 0 then Some(Host(ParseInt(v)))
    else None
  }

  /** `+set <variable> <value>`. */
  function SetVariable(variable: string, v: string): Option<Arg> {
    if variable == "dmflags" then Some(DmFlags(v))
    else if variable == "dmflags2" then Some(DmFlags2(v))
    else if variable == "fraglimit" then Some(FragLimit(v))
    else None
  }

  /** Reads the decision at the front of a token list, with the number of
      tokens it spans; `None` when the front is not in the launcher's
      vocabulary. */
  function ParseStep(ts: seq<string>): (r: Option<(Arg, nat)>)
    requires |ts| > 0
    ensures r.Some? ==> 1 <= r.value.1 <= |ts|
  {
    if ts[0] == "-file" || ts[0] == "-deh" then
      var n := RunLength(ts[1..]);
      if n == 0 then None
      else
        var names := ts[1..n + 1];
        Some((if ts[0] == "-file" then Files(names) else Dehacked(names), n + 1))
    else if ts[0] == "-deathmath" then Some((Deathmatch, 1))
    else if ts[0] == "-extratic" then Some((ExtraTic, 1))
    else if ts[0] == "+set" then
      if |ts| < 3 then None
      else
        match SetVariable(ts[1], ts[2])
        case None => None
        case Some(a) => Some((a, 3))
    else if |ts| < 2 then None
    else
      match Unary(ts[0], ts[1])
      case None => None
      case Some(a) => Some((a, 2))
  }

  /** Reads a whole token list back into decisions. */
  function Parse(ts: seq<string>): Option<seq<Arg>>
    decreases |ts|
  {
    if |ts| == 0 then Some([])
    else
      match ParseStep(ts)
      case None => None
      case Some((a, n)) => Cons(a, Parse(ts[n..]))
  }

  /** The decision at the front of a rendering is read back whole, whatever
      follows it, provided what follows starts with a flag. */
  lemma ParseStepRender(a: Arg, rest: seq<string>)
    requires WellFormedArg(a)
    requires |rest| == 0 || IsFlag(rest[0])
    ensures ParseStep(Render(a) + rest) == Some((a, |Render(a)|))
  {
    match a
    case Files(names) => ParseStepGroup(names, rest, true);
    case Dehacked(names) => ParseStepGroup(names, rest, false);
    case Host(players) => ParseStepHost(players, rest);
    case Iwad(v) => ParseStepUnary(a, rest);
    case Skill(v) => ParseStepUnary(a, rest);
    case Warp(v) => ParseStepUnary(a, rest);
    case Join(v) => ParseStepUnary(a, rest);
    case NetPort(v) => ParseStepUnary(a, rest);
    case NetMode(v) => ParseStepUnary(a, rest);
    case Dup(v) => ParseStepUnary(a, rest);
    case _ => ParseStepOther(a, rest);
  }

  lemma ParseStepGroup(names: seq<string>, rest: seq<string>, pwads: bool)
    requires |names| > 0 && forall k :: 0 <= k < |names| ==> !IsFlag(names[k])
    requires |rest| == 0 || IsFlag(rest[0])
    ensures var a := if pwads then Files(names) else Dehacked(names);
            ParseStep(Render(a) + rest) == Some((a, |Render(a)|))
  {
    var ts := [if pwads then "-file" else "-deh"] + names + rest;
    RunLengthOfGroup(names, rest);
    assert ts[1..] == names + rest;
    assert ts[1..|names| + 1] == names;
  }

  lemma ParseStepHost(players: nat, rest: seq<string>)
    requires 0 < players <= IntMax
    ensures ParseStep(Render(Host(players)) + rest) == Some((Host(players), 2))
  {
    ParseIntOfDecimal(players);
  }

  lemma ParseStepUnary(a: Arg, rest: seq<string>)
    requires a.Iwad? || a.Skill? || a.Warp? || a.Join? || a.NetPort? || a.NetMode? || a.Dup?
    ensures ParseStep(Render(a) + rest) == Some((a, 2))
  {
  }

  lemma ParseStepOther(a: Arg, rest: seq<string>)
    requires a.DmFlags? || a.DmFlags2? || a.FragLimit? || a.Deathmatch? || a.ExtraTic?
    ensures ParseStep(Render(a) + rest) == Some((a, |Render(a)|))
  {
  }

  /** Rendering is unambiguous: a well-formed plan is read back exactly. */
  lemma {:induction false} ParseRenderAll(p: seq<Arg>)
    requires WellFormed(p)
    ensures Parse(RenderAll(p)) == Some(p)
  {
    if |p| > 0 {
      assert WellFormed(p[1..]) by {
        forall i | 0 <= i < |p[1..]| ensures WellFormedArg(p[1..][i]) {
          assert p[1..][i] == p[i + 1];
        }
      }
      ParseRenderAll(p[1..]);
      var rest := RenderAll(p[1..]);
      var ts := Render(p[0]) + rest;
      assert RenderAll(p) == ts;
      ParseStepRender(p[0], rest);
      assert ts[|Render(p[0])|..] == rest;
      assert p == [p[0]] + p[1..];
    }
  }
}

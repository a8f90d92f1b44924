/**
 * The launch-argument builder: from a configuration snapshot to the ordered
 * list of command-line tokens for the engine. The decisions are made first
 * (`Plan`, a list of `Arg`s in a fixed order), then spelled out as tokens,
 * quoted, and followed by the two raw user-supplied strings.
 */
module Builder {
  import opened Wrappers
  import opened Strings
  import opened Decimal
  import opened Config
  import opened Registry
  import opened Quoting
  import opened Arguments
  import opened FileGroups

  /** `save/iwad` is present and not empty. */
  predicate IwadSelected(store: Store) {
    Get(store, SaveSection, "iwad").Some? && |Get(store, SaveSection, "iwad").value| > 0
  }

  function SelectedIwad(store: Store): string
    requires IwadSelected(store)
  {
    Get(store, SaveSection, "iwad").value
  }

  // ---------------------------------------------------------------- IWAD

  function IwadArgs(paths: seq<string>): (p: seq<Arg>)
    ensures |p| == |paths|
    ensures forall i :: 0 <= i < |p| ==> p[i] == Iwad(paths[i])
    ensures Ordered(p) && RanksWithin(p, 0, 0)
  {
    seq(|paths|, i requires 0 <= i < |paths| => Iwad(paths[i]))
  }

  /** One `-iwad <file>` for every `i<d>n` line naming the IWAD whose
      `i<d>f` key occurs exactly once; nothing when no line qualifies. */
  function IwadPlan(store: Store, name: string): (p: seq<Arg>)
    ensures forall i :: 0 <= i < |p| ==> p[i].Iwad? && IsResolvedPath(Lines(store, IwadsSection), 'i', name, p[i].path)
    ensures forall j :: Resolves(Lines(store, IwadsSection), 'i', name, j) ==>
              Iwad(PairedFile(Lines(store, IwadsSection), 'i', j)) in p
    ensures |p| == 0 <==> forall j :: 0 <= j < |Lines(store, IwadsSection)| ==> !Resolves(Lines(store, IwadsSection), 'i', name, j)
    ensures |p| == ResolvingCount(Lines(store, IwadsSection), 'i', name, |Lines(store, IwadsSection)|)
    ensures forall j :: Resolves(Lines(store, IwadsSection), 'i', name, j) ==>
              var k := ResolvingCount(Lines(store, IwadsSection), 'i', name, j);
              k < |p| && p[k] == Iwad(PairedFile(Lines(store, IwadsSection), 'i', j))
    ensures Ordered(p) && RanksWithin(p, 0, 0)
  {
    var sec := Lines(store, IwadsSection);
    IwadArgsOfSection(sec, name);
    IwadArgs(ResolveAll(sec, 'i', name))
  }

  lemma IwadArgsOfSection(sec: Section, name: string)
    ensures var p := IwadArgs(ResolveAll(sec, 'i', name));
            && (forall i :: 0 <= i < |p| ==> p[i].Iwad? && IsResolvedPath(sec, 'i', name, p[i].path))
            && (forall j :: Resolves(sec, 'i', name, j) ==> Iwad(PairedFile(sec, 'i', j)) in p)
            && |p| == ResolvingCount(sec, 'i', name, |sec|)
            && (forall j :: Resolves(sec, 'i', name, j) ==>
                  var k := ResolvingCount(sec, 'i', name, j);
                  k < |p| && p[k] == Iwad(PairedFile(sec, 'i', j)))
  {
    var paths := ResolveAll(sec, 'i', name);
    var p := IwadArgs(paths);
    forall j | Resolves(sec, 'i', name, j)
      ensures Iwad(PairedFile(sec, 'i', j)) in p
    {
      assert p[ResolvingCount(sec, 'i', name, j)] == Iwad(PairedFile(sec, 'i', j));
    }
  }

  // ------------------------------------------------------------ settings

  /** `-skill <value>` exactly when `save/skill` is present. */
  function SkillPlan(store: Store): (p: seq<Arg>)
    ensures |p| <= 1 && RanksWithin(p, 1, 1)
    ensures forall v :: Skill(v) in p <==> Get(store, SaveSection, "skill") == Some(v)
  {
    match Get(store, SaveSection, "skill")
    case Some(v) => [Skill(v)]
    case None => []
  }

  /** `+map <value>` exactly when `save/warp` is present. */
  function WarpPlan(store: Store): (p: seq<Arg>)
    ensures |p| <= 1 && RanksWithin(p, 2, 2)
    ensures forall v :: Warp(v) in p <==> Get(store, SaveSection, "warp") == Some(v)
  {
    match Get(store, SaveSection, "warp")
    case Some(v) => [Warp(v)]
    case None => []
  }

  /** `+set dmflags <value>` exactly when `save/dmflags` is present. */
  function DmFlagsPlan(store: Store): (p: seq<Arg>)
    ensures |p| <= 1 && RanksWithin(p, 3, 3)
    ensures forall v :: DmFlags(v) in p <==> Get(store, SaveSection, "dmflags") == Some(v)
  {
    match Get(store, SaveSection, "dmflags")
    case Some(v) => [DmFlags(v)]
    case None => []
  }

  /** `+set dmflags2 <value>` exactly when `save/dmflags2` is present. */
  function DmFlags2Plan(store: Store): (p: seq<Arg>)
    ensures |p| <= 1 && RanksWithin(p, 4, 4)
    ensures forall v :: DmFlags2(v) in p <==> Get(store, SaveSection, "dmflags2") == Some(v)
  {
    match Get(store, SaveSection, "dmflags2")
    case Some(v) => [DmFlags2(v)]
    case None => []
  }

  /** The four single-valued settings, in emission order. */
  function SettingsPlan(store: Store): seq<Arg> {
    SkillPlan(store) + WarpPlan(store) + DmFlagsPlan(store) + DmFlags2Plan(store)
  }

  // --------------------------------------------------------------- files

  /** All names carried by the file groups of a plan, group by group. */
  function GroupNames(p: seq<Arg>): seq<string> {
    if |p| == 0 then []
    else
      (match p[0] case Files(names) => names case Dehacked(names) => names case _ => [])
      + GroupNames(p[1..])
  }

  /** `-file` with the archives if there are any, then `-deh` with the
      patches if there are any. */
  function GroupsPlan(pwads: seq<string>, patches: seq<string>): seq<Arg> {
    (if |pwads| > 0 then [Files(pwads)] else []) + (if |patches| > 0 then [Dehacked(patches)] else [])
  }

  lemma GroupsPlanNames(pwads: seq<string>, patches: seq<string>)
    ensures GroupNames(GroupsPlan(pwads, patches)) == pwads + patches
  {
    var p := GroupsPlan(pwads, patches);
    assert GroupNames([Dehacked(patches)]) == patches by {
      assert [Dehacked(patches)][1..] == [];
    }
    assert GroupNames([Files(pwads)]) == pwads by {
      assert [Files(pwads)][1..] == [];
    }
    if |pwads| > 0 && |patches| > 0 {
      assert p[1..] == [Dehacked(patches)];
    } else if |pwads| > 0 {
      assert p == [Files(pwads)];
      assert pwads + patches == pwads;
    } else if |patches| > 0 {
      assert p == [Dehacked(patches)];
      assert pwads + patches == patches;
    } else {
      assert p == [];
    }
  }

  /** The group plan has at most a `-file` then a `-deh` group, neither empty. */
  lemma GroupsPlanShape(pwads: seq<string>, patches: seq<string>)
    ensures var p := GroupsPlan(pwads, patches);
            && |p| <= 2
            && (forall i :: 0 <= i < |p| ==> (p[i] == Files(pwads) && |pwads| > 0) || (p[i] == Dehacked(patches) && |patches| > 0))
            && Ordered(p) && RanksWithin(p, 5, 6)
  {
  }

  /** The `file<digits>` lines of the save section, partitioned. */
  function FilePlan(store: Store): seq<Arg> {
    var groups := Partition(FileValues(Lines(store, SaveSection)));
    GroupsPlan(groups.0, groups.1)
  }

  /** At most a `-file` group followed by a `-deh` group; neither is empty,
      each holds only names of its kind, and together they hold every
      scanned file exactly as often as it was scanned. */
  lemma FilePlanSpec(store: Store)
    ensures var p := FilePlan(store);
            && |p| <= 2
            && (forall i :: 0 <= i < |p| ==> p[i].Files? || p[i].Dehacked?)
            && (forall i :: 0 <= i < |p| && p[i].Files? ==>
                  |p[i].pwads| > 0 && forall k :: 0 <= k < |p[i].pwads| ==> !IsPatchName(p[i].pwads[k]))
            && (forall i :: 0 <= i < |p| && p[i].Dehacked? ==>
                  |p[i].patches| > 0 && forall k :: 0 <= k < |p[i].patches| ==> IsPatchName(p[i].patches[k]))
            && multiset(GroupNames(p)) == multiset(FileValues(Lines(store, SaveSection)))
            && Ordered(p)
  {
    var vs := FileValues(Lines(store, SaveSection));
    PartitionSpec(vs);
    var groups := Partition(vs);
    GroupsPlanShape(groups.0, groups.1);
    GroupsPlanNames(groups.0, groups.1);
  }

  // ----------------------------------------------------------- game type

  /** `save/gametype` is present and not "0". */
  predicate Multiplayer(store: Store) {
    Get(store, SaveSection, "gametype").Some? && Get(store, SaveSection, "gametype").value != "0"
  }

  /** `save/players` read as an `int`; 0 when absent or not a number. */
  function Players(store: Store): int {
    match Get(store, SaveSection, "players")
    case Some(s) => ParseInt(s)
    case None => 0
  }

  /** A positive player count hosts; a zero count joins the configured host;
      a negative count does neither. */
  function PeerPlan(store: Store): (p: seq<Arg>)
    ensures |p| <= 1
    ensures forall n :: Host(n) in p <==> Players(store) > 0 && n == Players(store)
    ensures forall h :: Join(h) in p <==> Players(store) == 0 && Get(store, SaveSection, "host") == Some(h)
    ensures RanksWithin(p, 8, 8)
  {
    var players := Players(store);
    if players > 0 then [Host(players)]
    else if players == 0 then
      match Get(store, SaveSection, "host") case Some(h) => [Join(h)] case None => []
    else []
  }

  /** Inside a multiplayer game, `-deathmath` (spelled so) for game type "2". */
  function DeathmatchPlan(store: Store): (p: seq<Arg>)
    ensures |p| <= 1 && RanksWithin(p, 7, 7)
    ensures Deathmatch in p <==> Get(store, SaveSection, "gametype") == Some("2")
  {
    if Get(store, SaveSection, "gametype") == Some("2") then [Deathmatch] else []
  }

  /** Inside a multiplayer game, `+set fraglimit <value>` whenever
      `save/fraglimit` is present, whichever peer branch was taken. */
  function FragLimitPlan(store: Store): (p: seq<Arg>)
    ensures |p| <= 1 && RanksWithin(p, 9, 9)
    ensures forall v :: FragLimit(v) in p <==> Get(store, SaveSection, "fraglimit") == Some(v)
  {
    match Get(store, SaveSection, "fraglimit")
    case Some(v) => [FragLimit(v)]
    case None => []
  }

  /** Nothing at all unless the game type is present and not "0"; inside a
      multiplayer game, deathmatch for type "2", the peer decision and the
      frag limit, in that order. */
  function GamePlan(store: Store): (p: seq<Arg>)
    ensures !Multiplayer(store) ==> p == []
    ensures Ordered(p) && RanksWithin(p, 7, 9)
  {
    if !Multiplayer(store) then []
    else
      var dm, peer, frag := DeathmatchPlan(store), PeerPlan(store), FragLimitPlan(store);
      OrderedAppend(dm, peer, 7, 7, 8);
      OrderedAppend(dm + peer, frag, 7, 8, 9);
      dm + peer + frag
  }

  /** `x` is in a concatenation of three lists exactly when it is in one of them. */
  lemma InThree(a: seq<Arg>, b: seq<Arg>, c: seq<Arg>, x: Arg)
    ensures x in a + b + c <==> x in a || x in b || x in c
  {
  }

  /** What the game block emits, stated from the store: each decision
      appears exactly when the game is multiplayer and its own setting
      selects it. */
  lemma GamePlanSpec(store: Store)
    ensures Deathmatch in GamePlan(store) <==> Multiplayer(store) && Get(store, SaveSection, "gametype") == Some("2")
    ensures forall n :: Host(n) in GamePlan(store) <==> Multiplayer(store) && Players(store) > 0 && n == Players(store)
    ensures forall h :: Join(h) in GamePlan(store) <==>
              Multiplayer(store) && Players(store) == 0 && Get(store, SaveSection, "host") == Some(h)
    ensures forall v :: FragLimit(v) in GamePlan(store) <==>
              Multiplayer(store) && Get(store, SaveSection, "fraglimit") == Some(v)
  {
    var p := GamePlan(store);
    var a, b, c := DeathmatchPlan(store), PeerPlan(store), FragLimitPlan(store);
    if Multiplayer(store) {
      assert p == a + b + c;
      InThree(a, b, c, Deathmatch);
      assert Deathmatch !in b && Deathmatch !in c;
      forall n ensures Host(n) in p <==> Players(store) > 0 && n == Players(store) {
        InThree(a, b, c, Host(n));
        assert Host(n) !in a && Host(n) !in c;
      }
      forall h ensures Join(h) in p <==> Players(store) == 0 && Get(store, SaveSection, "host") == Some(h) {
        InThree(a, b, c, Join(h));
        assert Join(h) !in a && Join(h) !in c;
      }
      forall v ensures FragLimit(v) in p <==> Get(store, SaveSection, "fraglimit") == Some(v) {
        InThree(a, b, c, FragLimit(v));
        assert FragLimit(v) !in a && FragLimit(v) !in b;
      }
    }
  }

  // ------------------------------------------------------------- network

  /** `net/advenabled` is "enabled". */
  predicate NetEnabled(store: Store) {
    Get(store, NetSection, "advenabled") == Some("enabled")
  }

  /** `-port <value>` when `net/port` is present. */
  function NetPortPlan(store: Store): (p: seq<Arg>)
    ensures |p| <= 1 && RanksWithin(p, 10, 10)
    ensures forall v :: NetPort(v) in p <==> Get(store, NetSection, "port") == Some(v)
  {
    match Get(store, NetSection, "port")
    case Some(v) => [NetPort(v)]
    case None => []
  }

  /** `-extratic` only for `net/extratic` equal to "enabled". */
  function ExtraTicPlan(store: Store): (p: seq<Arg>)
    ensures |p| <= 1 && RanksWithin(p, 11, 11)
    ensures ExtraTic in p <==> Get(store, NetSection, "extratic") == Some("enabled")
  {
    if Get(store, NetSection, "extratic") == Some("enabled") then [ExtraTic] else []
  }

  /** `net/netmode` "1" selects `-netmode 0`, "2" selects `-netmode 1`;
      any other value, or none, emits nothing. */
  function NetModePlan(store: Store): (p: seq<Arg>)
    ensures |p| <= 1 && RanksWithin(p, 12, 12)
    ensures forall m :: NetMode(m) in p ==> m == "0" || m == "1"
    ensures NetMode("0") in p <==> Get(store, NetSection, "netmode") == Some("1")
    ensures NetMode("1") in p <==> Get(store, NetSection, "netmode") == Some("2")
  {
    if Get(store, NetSection, "netmode") == Some("1") then [NetMode("0")]
    else if Get(store, NetSection, "netmode") == Some("2") then [NetMode("1")]
    else []
  }

  /** `-dup <value>` when `net/dup` is present and not "0". */
  function DupPlan(store: Store): (p: seq<Arg>)
    ensures |p| <= 1 && RanksWithin(p, 13, 13)
    ensures forall d :: Dup(d) in p <==> Get(store, NetSection, "dup") == Some(d) && d != "0"
  {
    match Get(store, NetSection, "dup")
    case Some(d) => if d != "0" then [Dup(d)] else []
    case None => []
  }

  /** Nothing from the network section unless `net/advenabled` is
      "enabled"; then the port, extra tics, network mode and duplication,
      in that order. */
  function NetPlan(store: Store): (p: seq<Arg>)
    ensures !NetEnabled(store) ==> p == []
    ensures Ordered(p) && RanksWithin(p, 10, 13)
  {
    if !NetEnabled(store) then []
    else
      var a, b, c, d := NetPortPlan(store), ExtraTicPlan(store), NetModePlan(store), DupPlan(store);
      OrderedAppend(a, b, 10, 10, 11);
      OrderedAppend(a + b, c, 10, 11, 12);
      OrderedAppend(a + b + c, d, 10, 12, 13);
      a + b + c + d
  }

  /** `x` is in a concatenation of four lists exactly when it is in one of them. */
  lemma InFour(a: seq<Arg>, b: seq<Arg>, c: seq<Arg>, d: seq<Arg>, x: Arg)
    ensures x in a + b + c + d <==> x in a || x in b || x in c || x in d
  {
  }

  /** What the network block emits, stated from the store: each option
      appears exactly when advanced networking is enabled and its own
      setting selects it. */
  lemma NetPlanSpec(store: Store)
    ensures forall v :: NetPort(v) in NetPlan(store) <==> NetEnabled(store) && Get(store, NetSection, "port") == Some(v)
    ensures ExtraTic in NetPlan(store) <==> NetEnabled(store) && Get(store, NetSection, "extratic") == Some("enabled")
    ensures forall m :: NetMode(m) in NetPlan(store) <==>
              && NetEnabled(store)
              && ((m == "0" && Get(store, NetSection, "netmode") == Some("1"))
                  || (m == "1" && Get(store, NetSection, "netmode") == Some("2")))
    ensures forall d :: Dup(d) in NetPlan(store) <==>
              NetEnabled(store) && Get(store, NetSection, "dup") == Some(d) && d != "0"
  {
    var p := NetPlan(store);
    var a, b, c, d := NetPortPlan(store), ExtraTicPlan(store), NetModePlan(store), DupPlan(store);
    if NetEnabled(store) {
      assert p == a + b + c + d;
      forall v ensures NetPort(v) in p <==> Get(store, NetSection, "port") == Some(v) {
        InFour(a, b, c, d, NetPort(v));
        assert NetPort(v) !in b && NetPort(v) !in c && NetPort(v) !in d;
      }
      InFour(a, b, c, d, ExtraTic);
      assert ExtraTic !in a && ExtraTic !in c && ExtraTic !in d;
      forall m ensures NetMode(m) in p <==>
                 (m == "0" && Get(store, NetSection, "netmode") == Some("1"))
                 || (m == "1" && Get(store, NetSection, "netmode") == Some("2")) {
        InFour(a, b, c, d, NetMode(m));
        assert NetMode(m) !in a && NetMode(m) !in b && NetMode(m) !in d;
      }
      forall e ensures Dup(e) in p <==> Get(store, NetSection, "dup") == Some(e) && e != "0" {
        InFour(a, b, c, d, Dup(e));
        assert Dup(e) !in a && Dup(e) !in b && Dup(e) !in c;
      }
    }
  }

  // --------------------------------------------------------------- plan

  /** All decisions for a store whose IWAD is selected. They come out in
      the fixed order: IWADs, skill, warp, dmflags, dmflags2, files,
      patches, deathmatch, host or join, fraglimit, port, extratic,
      netmode, dup; only `-iwad` may repeat. */
  function Plan(store: Store): (p: seq<Arg>)
    requires IwadSelected(store)
    ensures Ordered(p)
  {
    var iw, st, f, g, n := IwadPlan(store, SelectedIwad(store)), SettingsPlan(store), FilePlan(store), GamePlan(store), NetPlan(store);
    SettingsOrdered(store);
    FilesOrdered(store);
    OrderedAppend(iw, st, 0, 0, 4);
    OrderedAppend(iw + st, f, 0, 4, 6);
    OrderedAppend(iw + st + f, g, 0, 6, 9);
    OrderedAppend(iw + st + f + g, n, 0, 9, 13);
    iw + st + f + g + n
  }

  /** `general/quotefiles` is not "disabled". */
  predicate QuotingEnabled(store: Store) {
    Get(store, GeneralSection, "quotefiles") != Some("disabled")
  }

  /** `general/alwaysadd` then `save/extra`, each as one raw token: one
      token per value present, `alwaysadd` first and `extra` last. */
  function Trailing(store: Store): (ts: seq<string>)
    ensures |ts| == (if Has(store, GeneralSection, "alwaysadd") then 1 else 0) + (if Has(store, SaveSection, "extra") then 1 else 0)
    ensures forall v :: Get(store, GeneralSection, "alwaysadd") == Some(v) ==> ts[0] == v
    ensures forall v :: Get(store, SaveSection, "extra") == Some(v) ==> ts[|ts| - 1] == v
  {
    (match Get(store, GeneralSection, "alwaysadd") case Some(v) => [v] case None => [])
    + (match Get(store, SaveSection, "extra") case Some(v) => [v] case None => [])
  }

  /** The last steps of the builder: the quoting pass over the tokens built
      so far, when it is on, then the trailing values. Each built token keeps
      its place and is quoted exactly when quoting is on; the trailing
      values follow unquoted. */
  function Assemble(tokens: seq<string>, quoting: bool, trailing: seq<string>): (args: seq<string>)
    ensures |args| == |tokens| + |trailing|
    ensures forall i :: 0 <= i < |tokens| ==> args[i] == if quoting then Quote(tokens[i]) else tokens[i]
    ensures forall i :: 0 <= i < |trailing| ==> args[|tokens| + i] == trailing[i]
  {
    (if quoting then QuoteAll(tokens) else tokens) + trailing
  }

  /** The argument list handed to the engine. */
  function LaunchArguments(store: Store): (args: seq<string>)
    ensures !IwadSelected(store) ==> args == []
    ensures IwadSelected(store) ==>
              && |args| == |RenderAll(Plan(store))| + |Trailing(store)|
              && args[|args| - |Trailing(store)|..] == Trailing(store)
  {
    if !IwadSelected(store) then []
    else Assemble(RenderAll(Plan(store)), QuotingEnabled(store), Trailing(store))
  }

  // ---------------------------------------------------------- properties

  lemma SettingsOrdered(store: Store)
    ensures Ordered(SettingsPlan(store)) && RanksWithin(SettingsPlan(store), 1, 4)
  {
    var a, b, c, d := SkillPlan(store), WarpPlan(store), DmFlagsPlan(store), DmFlags2Plan(store);
    OrderedAppend(a, b, 1, 1, 2);
    OrderedAppend(a + b, c, 1, 2, 3);
    OrderedAppend(a + b + c, d, 1, 3, 4);
  }

  lemma FilesOrdered(store: Store)
    ensures Ordered(FilePlan(store)) && RanksWithin(FilePlan(store), 5, 6)
  {
    var groups := Partition(FileValues(Lines(store, SaveSection)));
    GroupsPlanShape(groups.0, groups.1);
  }

  /** `-host` and `-join` never both appear. */
  lemma HostJoinExclusive(store: Store)
    requires IwadSelected(store)
    ensures forall i, j :: 0 <= i < |Plan(store)| && 0 <= j < |Plan(store)| ==> !(Plan(store)[i].Host? && Plan(store)[j].Join?)
  {
    forall i, j | 0 <= i < |Plan(store)| && 0 <= j < |Plan(store)|
      ensures !(Plan(store)[i].Host? && Plan(store)[j].Join?)
    {
      OrderedExcludesHostAndJoin(Plan(store), i, j);
    }
  }

  /** No scanned file name is itself one of the launcher's flags. */
  predicate NoFlagFileNames(store: Store) {
    var vs := FileValues(Lines(store, SaveSection));
    forall k :: 0 <= k < |vs| ==> !IsFlag(vs[k])
  }

  /** Decisions outside the ranks of file groups and `-host` carry no
      condition for being read back. */
  lemma BandWellFormed(p: seq<Arg>, lo: nat, hi: nat)
    requires RanksWithin(p, lo, hi)
    requires hi < 5 || lo == hi == 7 || lo >= 9
    ensures WellFormed(p)
  {
    forall i | 0 <= i < |p| ensures WellFormedArg(p[i]) {
      assert lo <= Rank(p[i]) <= hi;
    }
  }

  lemma FilesWellFormed(store: Store)
    requires NoFlagFileNames(store)
    ensures WellFormed(FilePlan(store))
  {
    var vs := FileValues(Lines(store, SaveSection));
    var f := FilePlan(store);
    FilePlanSpec(store);
    forall i | 0 <= i < |f| ensures WellFormedArg(f[i]) {
      if f[i].Files? {
        forall k | 0 <= k < |f[i].pwads| ensures !IsFlag(f[i].pwads[k]) {
          GroupNamesContain(f, i, f[i].pwads[k]);
          assert f[i].pwads[k] in multiset(vs);
        }
      } else {
        forall k | 0 <= k < |f[i].patches| ensures !IsFlag(f[i].patches[k]) {
          GroupNamesContain(f, i, f[i].patches[k]);
          assert f[i].patches[k] in multiset(vs);
        }
      }
    }
  }

  lemma GameWellFormed(store: Store)
    ensures WellFormed(GamePlan(store))
  {
    if Multiplayer(store) {
      var dm, peer, frag := DeathmatchPlan(store), PeerPlan(store), FragLimitPlan(store);
      BandWellFormed(dm, 7, 7);
      BandWellFormed(frag, 9, 9);
      assert WellFormed(peer) by {
        if |peer| > 0 && peer[0].Host? {
          assert Host(peer[0].players) in peer;
        }
      }
      WellFormedAppend(dm, peer);
      WellFormedAppend(dm + peer, frag);
    }
  }

  /** Under that condition every decision can be read back from its tokens. */
  lemma PlanWellFormed(store: Store)
    requires IwadSelected(store) && NoFlagFileNames(store)
    ensures WellFormed(Plan(store))
  {
    var iw, st, f, g, n := IwadPlan(store, SelectedIwad(store)), SettingsPlan(store), FilePlan(store), GamePlan(store), NetPlan(store);
    SettingsOrdered(store);
    BandWellFormed(iw, 0, 0);
    BandWellFormed(st, 1, 4);
    FilesWellFormed(store);
    GameWellFormed(store);
    BandWellFormed(n, 10, 13);
    WellFormedAppend(iw, st);
    WellFormedAppend(iw + st, f);
    WellFormedAppend(iw + st + f, g);
    WellFormedAppend(iw + st + f + g, n);
  }

  lemma {:induction false} GroupNamesContain(p: seq<Arg>, i: int, name: string)
    requires 0 <= i < |p|
    requires (p[i].Files? && name in p[i].pwads) || (p[i].Dehacked? && name in p[i].patches)
    ensures name in GroupNames(p)
  {
    if i > 0 {
      GroupNamesContain(p[1..], i - 1, name);
    }
  }

  /** The argument list decodes back to the decisions it was built from:
      strip the raw trailing tokens, undo the quoting, parse. */
  lemma ArgumentsDecode(store: Store)
    requires IwadSelected(store) && NoFlagFileNames(store)
    ensures var args := LaunchArguments(store);
            var body := args[..|args| - |Trailing(store)|];
            Parse(if QuotingEnabled(store) then UnquoteAll(body) else body) == Some(Plan(store))
  {
    var tokens := RenderAll(Plan(store));
    var args := LaunchArguments(store);
    var body := args[..|args| - |Trailing(store)|];
    if QuotingEnabled(store) {
      assert body == QuoteAll(tokens);
      UnquoteAllQuoteAll(tokens);
    } else {
      assert body == tokens;
    }
    PlanWellFormed(store);
    ParseRenderAll(Plan(store));
  }
}

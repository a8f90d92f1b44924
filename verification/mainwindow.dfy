/**
 * The two routines of the main window as they are written: `getArguments`
 * appends tokens to one growing list block by block, scanning sections
 * line by line and rewriting the list in place to quote it; `getExecutable`
 * scans the port section and returns at the first resolving line. Each is
 * proved to compute what the declarative model in `Builder` and `Launcher`
 * describes.
 */
module MainWindow {
  import opened Wrappers
  import opened Strings
  import opened Decimal
  import opened Config
  import opened Registry
  import opened Quoting
  import opened Arguments
  import opened FileGroups
  import opened Builder
  import opened Launcher

  // ------------------------------------------------------------- scans

  /** An anchored, literal key scan: the values of the lines keyed `key`. */
  method ScanKey(sec: Section, key: string) returns (values: seq<string>)
    ensures values == ValuesOf(sec, key)
  {
    values := [];
    var i := 0;
    assert sec[i..] == sec;
    while i < |sec|
      invariant 0 <= i <= |sec|
      invariant values + ValuesOf(sec[i..], key) == ValuesOf(sec, key)
    {
      assert sec[i..][1..] == sec[i + 1..];
      if sec[i].key == key {
        values := values + [sec[i].value];
      }
      i := i + 1;
    }
  }

  /** Whether name line `i` resolves `name`, and its file if so: the key
      pattern, the name comparison, then the paired-key scan that must find
      exactly one line. */
  method ResolveLine(sec: Section, prefix: char, name: string, i: nat) returns (file: Option<string>)
    requires i < |sec|
    ensures file.Some? <==> Resolves(sec, prefix, name, i)
    ensures file.Some? ==> file.value == PairedFile(sec, prefix, i)
  {
    var line := sec[i];
    if IsIndexKey(prefix, 'n', line.key) && line.value == name {
      var fileKey := PairedFileKey(prefix, line.key);
      var files := ScanKey(sec, fileKey);
      if |files| == 1 {
        return Some(files[0]);
      }
    }
    return None;
  }

  // --------------------------------------------------------- executable

  /** `getExecutable`: the file of the first port line that resolves the
      saved port name, or "" when the name is unset or nothing resolves. */
  method GetExecutable(store: Store) returns (exe: string)
    ensures exe == Executable(store)
  {
    var port := Get(store, SaveSection, "port");
    if port.None? {
      return "";
    }
    var name := port.value;
    var sec := Lines(store, PortsSection);
    ghost var target := ResolveFirst(sec, 'p', name);
    var i := 0;
    while i < |sec|
      invariant 0 <= i <= |sec|
      invariant ResolveFirstFrom(sec, 'p', name, i) == target
    {
      var file := ResolveLine(sec, 'p', name, i);
      if file.Some? {
        return file.value;
      }
      i := i + 1;
    }
    return "";
  }

  // ----------------------------------------------------------- tokens

  /** Spelling one more IWAD path in front of the rest. */
  lemma IwadTokensCons(path: string, rest: seq<string>)
    ensures RenderAll(IwadArgs([path] + rest)) == ["-iwad", path] + RenderAll(IwadArgs(rest))
  {
    var p := IwadArgs([path] + rest);
    assert p[1..] == IwadArgs(rest);
  }

  /** The IWAD block: a `-iwad <file>` pair for every resolving name line,
      in section order; the scan does not stop at the first. */
  method IwadTokens(store: Store, name: string) returns (ourString: seq<string>)
    ensures ourString == RenderAll(IwadPlan(store, name))
  {
    var sec := Lines(store, IwadsSection);
    ourString := [];
    var i := 0;
    while i < |sec|
      invariant 0 <= i <= |sec|
      invariant ourString + RenderAll(IwadArgs(ResolveFrom(sec, 'i', name, i))) == RenderAll(IwadArgs(ResolveFrom(sec, 'i', name, 0)))
    {
      var file := ResolveLine(sec, 'i', name, i);
      if file.Some? {
        IwadTokensCons(file.value, ResolveFrom(sec, 'i', name, i + 1));
        ourString := ourString + ["-iwad", file.value];
      }
      i := i + 1;
    }
  }

  /** A plan of at most one decision spells that decision. */
  lemma StepTokens(p: seq<Arg>)
    requires |p| <= 1
    ensures RenderAll(p) == if |p| == 0 then [] else Render(p[0])
  {
    if |p| == 1 {
      assert p[1..] == [];
    }
  }

  /** The tokens a single-valued setting contributes: its flag words and
      the stored value when the key is present, nothing otherwise. */
  function SettingWords(store: Store, section: string, key: string, words: seq<string>): seq<string> {
    match Get(store, section, key)
    case Some(v) => words + [v]
    case None => []
  }

  lemma SkillWords(store: Store)
    ensures RenderAll(SkillPlan(store)) == SettingWords(store, SaveSection, "skill", ["-skill"])
  {
    StepTokens(SkillPlan(store));
  }

  lemma WarpWords(store: Store)
    ensures RenderAll(WarpPlan(store)) == SettingWords(store, SaveSection, "warp", ["+map"])
  {
    StepTokens(WarpPlan(store));
  }

  lemma DmFlagsWords(store: Store)
    ensures RenderAll(DmFlagsPlan(store)) == SettingWords(store, SaveSection, "dmflags", ["+set", "dmflags"])
  {
    StepTokens(DmFlagsPlan(store));
  }

  lemma DmFlags2Words(store: Store)
    ensures RenderAll(DmFlags2Plan(store)) == SettingWords(store, SaveSection, "dmflags2", ["+set", "dmflags2"])
  {
    StepTokens(DmFlags2Plan(store));
  }

  /** `if hasValue(section, key)`: append the flag words and the value. */
  method AppendSetting(ourString: seq<string>, store: Store, section: string, key: string, words: seq<string>)
    returns (r: seq<string>)
    ensures r == ourString + SettingWords(store, section, key, words)
  {
    r := ourString;
    if Has(store, section, key) {
      r := r + words + [Get(store, section, key).value];
    }
  }

  /** The four single-valued settings, each appended when present. */
  method SettingTokens(store: Store) returns (ourString: seq<string>)
    ensures ourString == RenderAll(SettingsPlan(store))
  {
    ourString := AppendSetting([], store, SaveSection, "skill", ["-skill"]);
    ourString := AppendSetting(ourString, store, SaveSection, "warp", ["+map"]);
    ourString := AppendSetting(ourString, store, SaveSection, "dmflags", ["+set", "dmflags"]);
    ourString := AppendSetting(ourString, store, SaveSection, "dmflags2", ["+set", "dmflags2"]);
    SettingsWords(store);
  }

  lemma SettingsWords(store: Store)
    ensures RenderAll(SettingsPlan(store)) ==
              SettingWords(store, SaveSection, "skill", ["-skill"]) + SettingWords(store, SaveSection, "warp", ["+map"])
              + SettingWords(store, SaveSection, "dmflags", ["+set", "dmflags"]) + SettingWords(store, SaveSection, "dmflags2", ["+set", "dmflags2"])
  {
    var a, b, c, d := SkillPlan(store), WarpPlan(store), DmFlagsPlan(store), DmFlags2Plan(store);
    SkillWords(store);
    WarpWords(store);
    DmFlagsWords(store);
    DmFlags2Words(store);
    RenderAllAppend(a, b);
    RenderAllAppend(a + b, c);
    RenderAllAppend(a + b + c, d);
  }

  /** One more scanned name lands at the end of its group. */
  lemma PartitionSnoc(vs: seq<string>, v: string)
    ensures var r := Partition(vs);
            Partition(vs + [v]) == if IsPatchName(v) then (r.0, r.1 + [v]) else (r.0 + [v], r.1)
  {
    assert (vs + [v])[..|vs|] == vs;
  }

  /** The tokens of the group plan: `-file` and the archives, then `-deh`
      and the patches, each group only when it is non-empty. */
  lemma GroupTokens(pwads: seq<string>, patches: seq<string>)
    ensures RenderAll(GroupsPlan(pwads, patches)) ==
              (if |pwads| > 0 then ["-file"] + pwads else []) + (if |patches| > 0 then ["-deh"] + patches else [])
  {
    var a: seq<Arg> := if |pwads| > 0 then [Files(pwads)] else [];
    var b: seq<Arg> := if |patches| > 0 then [Dehacked(patches)] else [];
    StepTokens(a);
    StepTokens(b);
    RenderAllAppend(a, b);
  }

  /** The scan of the save section's `file<digits>` lines, each value sent
      to the archives or to the patches by its suffix. */
  method ScanFiles(sec: Section) returns (pwads: seq<string>, dhacked: seq<string>)
    ensures (pwads, dhacked) == Partition(FileValues(sec))
  {
    pwads, dhacked := [], [];
    var i := 0;
    while i < |sec|
      invariant 0 <= i <= |sec|
      invariant (pwads, dhacked) == Partition(FileValues(sec[..i]))
    {
      var front := sec[..i];
      assert sec[..i + 1][..i] == front;
      var line := sec[i];
      if IsFileKey(line.key) {
        PartitionSnoc(FileValues(front), line.value);
        if IsPatchName(line.value) {
          dhacked := dhacked + [line.value];
        } else {
          pwads := pwads + [line.value];
        }
      } else {
        assert FileValues(sec[..i + 1]) == FileValues(front);
      }
      i := i + 1;
    }
    assert sec[..i] == sec;
  }

  /** The file block: `-file` and the archives, then `-deh` and the
      patches, each group only when it is non-empty. */
  method FileTokens(store: Store) returns (ourString: seq<string>)
    ensures ourString == RenderAll(FilePlan(store))
  {
    var pwads, dhacked := ScanFiles(Lines(store, SaveSection));
    ourString := [];
    if |pwads| > 0 {
      ourString := ourString + ["-file"] + pwads;
    }
    if |dhacked| > 0 {
      ourString := ourString + ["-deh"] + dhacked;
    }
    GroupTokens(pwads, dhacked);
  }

  // ---------------------------------------------------------- game type

  /** The peer decision: `save/players` read with `toInt` (0 when absent);
      a positive count hosts, a zero count joins the saved host if any. */
  method PeerTokens(store: Store) returns (ts: seq<string>)
    ensures ts == RenderAll(PeerPlan(store))
  {
    var players := 0;
    if Has(store, SaveSection, "players") {
      players := ParseInt(Get(store, SaveSection, "players").value);
    }
    if players > 0 {
      ts := ["-host", NatToDecimal(players)];
    } else if players == 0 {
      if Has(store, SaveSection, "host") {
        ts := ["-join", Get(store, SaveSection, "host").value];
      } else {
        ts := [];
      }
    } else {
      ts := [];
    }
    StepTokens(PeerPlan(store));
  }

  lemma DeathmatchWords(store: Store)
    ensures RenderAll(DeathmatchPlan(store)) ==
              if Get(store, SaveSection, "gametype") == Some("2") then ["-deathmath"] else []
  {
    StepTokens(DeathmatchPlan(store));
  }

  lemma FragLimitWords(store: Store)
    ensures RenderAll(FragLimitPlan(store)) == SettingWords(store, SaveSection, "fraglimit", ["+set", "fraglimit"])
  {
    StepTokens(FragLimitPlan(store));
  }

  lemma GameWords(store: Store)
    requires Multiplayer(store)
    ensures RenderAll(GamePlan(store)) ==
              (if Get(store, SaveSection, "gametype") == Some("2") then ["-deathmath"] else [])
              + RenderAll(PeerPlan(store)) + SettingWords(store, SaveSection, "fraglimit", ["+set", "fraglimit"])
  {
    var a, b, c := DeathmatchPlan(store), PeerPlan(store), FragLimitPlan(store);
    DeathmatchWords(store);
    FragLimitWords(store);
    RenderAllAppend(a, b);
    RenderAllAppend(a + b, c);
  }

  /** The game-type block: nothing unless `save/gametype` is present and
      not "0"; then `-deathmath` for "2", the peer decision, and the frag
      limit. */
  method GameTokens(store: Store) returns (ourString: seq<string>)
    ensures ourString == RenderAll(GamePlan(store))
  {
    ourString := [];
    if Has(store, SaveSection, "gametype") {
      var tGameType := Get(store, SaveSection, "gametype").value;
      if tGameType != "0" {
        ourString := MultiplayerTokens(store, tGameType);
      }
    }
  }

  /** The inside of the game-type block, for a game type other than "0". */
  method MultiplayerTokens(store: Store, tGameType: string) returns (ourString: seq<string>)
    requires Get(store, SaveSection, "gametype") == Some(tGameType) && tGameType != "0"
    ensures ourString == RenderAll(GamePlan(store))
  {
    GameWords(store);
    ourString := if tGameType == "2" then ["-deathmath"] else [];
    var peer := PeerTokens(store);
    ourString := ourString + peer;
    ourString := AppendSetting(ourString, store, SaveSection, "fraglimit", ["+set", "fraglimit"]);
  }

  // ------------------------------------------------------------ network

  method AppendExtraTic(ourString: seq<string>, store: Store) returns (r: seq<string>)
    ensures r == ourString + RenderAll(ExtraTicPlan(store))
  {
    r := ourString;
    if Has(store, NetSection, "extratic") {
      var tExtratic := Get(store, NetSection, "extratic").value;
      if tExtratic == "enabled" {
        r := r + ["-extratic"];
      }
    }
    StepTokens(ExtraTicPlan(store));
  }

  method AppendNetMode(ourString: seq<string>, store: Store) returns (r: seq<string>)
    ensures r == ourString + RenderAll(NetModePlan(store))
  {
    r := ourString;
    if Has(store, NetSection, "netmode") {
      var tNetMode := Get(store, NetSection, "netmode").value;
      if tNetMode == "1" {
        r := r + ["-netmode", "0"];
      } else if tNetMode == "2" {
        r := r + ["-netmode", "1"];
      }
    }
    StepTokens(NetModePlan(store));
  }

  method AppendDup(ourString: seq<string>, store: Store) returns (r: seq<string>)
    ensures r == ourString + RenderAll(DupPlan(store))
  {
    r := ourString;
    if Has(store, NetSection, "dup") {
      var tDup := Get(store, NetSection, "dup").value;
      if tDup != "0" {
        r := r + ["-dup", tDup];
      }
    }
    StepTokens(DupPlan(store));
  }

  lemma NetPortWords(store: Store)
    ensures RenderAll(NetPortPlan(store)) == SettingWords(store, NetSection, "port", ["-port"])
  {
    StepTokens(NetPortPlan(store));
  }

  lemma NetWords(store: Store)
    requires NetEnabled(store)
    ensures RenderAll(NetPlan(store)) ==
              SettingWords(store, NetSection, "port", ["-port"]) + RenderAll(ExtraTicPlan(store))
              + RenderAll(NetModePlan(store)) + RenderAll(DupPlan(store))
  {
    var a, b, c, d := NetPortPlan(store), ExtraTicPlan(store), NetModePlan(store), DupPlan(store);
    NetPortWords(store);
    RenderAllAppend(a, b);
    RenderAllAppend(a + b, c);
    RenderAllAppend(a + b + c, d);
  }

  /** The four network options, each appended when it applies. */
  method NetOptionTokens(store: Store) returns (ourString: seq<string>)
    ensures ourString == SettingWords(store, NetSection, "port", ["-port"]) + RenderAll(ExtraTicPlan(store))
                         + RenderAll(NetModePlan(store)) + RenderAll(DupPlan(store))
  {
    ourString := AppendSetting([], store, NetSection, "port", ["-port"]);
    ourString := AppendExtraTic(ourString, store);
    ourString := AppendNetMode(ourString, store);
    ourString := AppendDup(ourString, store);
  }

  /** The network block: nothing unless `net/advenabled` is "enabled";
      then the port, extra tics, network mode and duplication. */
  method NetTokens(store: Store) returns (ourString: seq<string>)
    ensures ourString == RenderAll(NetPlan(store))
  {
    ourString := [];
    if Has(store, NetSection, "advenabled") {
      var aNetEnabled := Get(store, NetSection, "advenabled").value;
      if aNetEnabled == "enabled" {
        ourString := NetOptionTokens(store);
        NetWords(store);
      }
    }
  }

  /** The in-place quoting pass: every token with a space gets wrapped in
      double quotes. */
  method QuoteTokens(ts: seq<string>) returns (qs: seq<string>)
    ensures qs == QuoteAll(ts)
  {
    qs := ts;
    var i := 0;
    while i < |qs|
      invariant 0 <= i <= |qs| == |ts|
      invariant forall k :: 0 <= k < i ==> qs[k] == Quote(ts[k])
      invariant forall k :: i <= k < |qs| ==> qs[k] == ts[k]
    {
      if ' ' in qs[i] {
        qs := qs[i := "\"" + qs[i] + "\""];
      }
      i := i + 1;
    }
  }

  // ----------------------------------------------------------- arguments

  /** The tokens of the whole plan are the tokens of its blocks, in order. */
  lemma PlanTokens(store: Store)
    requires IwadSelected(store)
    ensures RenderAll(Plan(store)) ==
              RenderAll(IwadPlan(store, SelectedIwad(store))) + RenderAll(SettingsPlan(store))
              + RenderAll(FilePlan(store)) + RenderAll(GamePlan(store)) + RenderAll(NetPlan(store))
  {
    var a, b, c := IwadPlan(store, SelectedIwad(store)), SettingsPlan(store), FilePlan(store);
    var d, e := GamePlan(store), NetPlan(store);
    RenderAllAppend(a, b);
    RenderAllAppend(a + b, c);
    RenderAllAppend(a + b + c, d);
    RenderAllAppend(a + b + c + d, e);
  }

  /** The unquoted tail: `general/alwaysadd`, then `save/extra`. */
  method AppendTrailing(ourString: seq<string>, store: Store) returns (r: seq<string>)
    ensures r == ourString + Trailing(store)
  {
    r := ourString;
    if Has(store, GeneralSection, "alwaysadd") {
      r := r + [Get(store, GeneralSection, "alwaysadd").value];
    }
    if Has(store, SaveSection, "extra") {
      r := r + [Get(store, SaveSection, "extra").value];
    }
  }

  /** The blocks of a launch with a selected IWAD, before quoting. */
  method BlockTokens(store: Store) returns (ourString: seq<string>)
    requires IwadSelected(store)
    ensures ourString == RenderAll(Plan(store))
  {
    ourString := IwadTokens(store, Get(store, SaveSection, "iwad").value);
    var block := SettingTokens(store);
    ourString := ourString + block;
    block := FileTokens(store);
    ourString := ourString + block;
    block := GameTokens(store);
    ourString := ourString + block;
    block := NetTokens(store);
    ourString := ourString + block;
    PlanTokens(store);
  }

  /** `getArguments`: nothing without a selected IWAD; otherwise the five
      blocks in order, the quoting pass unless `general/quotefiles` is
      "disabled", then the two raw trailing values. */
  method GetArguments(store: Store) returns (ourString: seq<string>)
    ensures ourString == LaunchArguments(store)
  {
    if !Has(store, SaveSection, "iwad") {
      return [];
    }
    var rc := Get(store, SaveSection, "iwad").value;
    if |rc| == 0 {
      return [];
    }
    var tokens := BlockTokens(store);
    var doquotes := true;
    if Has(store, GeneralSection, "quotefiles") {
      var quotefiles := Get(store, GeneralSection, "quotefiles").value;
      if quotefiles == "disabled" {
        doquotes := false;
      }
    }
    ourString := tokens;
    if doquotes {
      ourString := QuoteTokens(tokens);
    }
    ourString := AppendTrailing(ourString, store);
    ArgumentsParts(store, doquotes);
  }

  lemma ArgumentsParts(store: Store, doquotes: bool)
    requires IwadSelected(store)
    requires doquotes == QuotingEnabled(store)
    ensures var tokens := RenderAll(Plan(store));
            LaunchArguments(store) == (if doquotes then QuoteAll(tokens) else tokens) + Trailing(store)
  {
  }
}

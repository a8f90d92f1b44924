/**
 * Concrete configurations and what the launcher makes of them.
 */
module Scenarios {
  import opened Wrappers
  import opened Strings
  import opened Config
  import opened Registry
  import opened Quoting
  import opened Arguments
  import opened FileGroups
  import opened Builder
  import opened Launcher

  /** A port named "zdoom" whose single file line gives its executable. */
  lemma ZdoomPortResolves()
    ensures var store := map[SaveSection := [Line("port", "zdoom")],
                             PortsSection := [Line("p1n", "zdoom"), Line("p1f", "/usr/bin/zdoom")]];
            Executable(store) == "/usr/bin/zdoom"
  {
    var store := map[SaveSection := [Line("port", "zdoom")],
                     PortsSection := [Line("p1n", "zdoom"), Line("p1f", "/usr/bin/zdoom")]];
    var sec := Lines(store, PortsSection);
    assert Get(store, SaveSection, "port") == Some("zdoom");
    assert PairedFileKey('p', "p1n") == "p1f";
    assert ValuesOf(sec, "p1f") == ["/usr/bin/zdoom"];
    assert FirstResolving(sec, 'p', "zdoom", 0);
  }

  /** A space-carrying file name is quoted, and left alone when quoting is off. */
  lemma QuotedModName()
    ensures Quote("my mod.wad") == "\"my mod.wad\""
    ensures Assemble(["my mod.wad"], false, []) == ["my mod.wad"]
  {
    var t := "my mod.wad";
    assert t[2] == ' ';
    var q := Quote(t);
    assert q == "\"" + t + "\"";
    assert |q| == 12;
    forall i | 0 <= i < 12
      ensures q[i] == "\"my mod.wad\""[i]
    {
    }
  }

  /** The IWAD "doom2" listed once gives exactly one `-iwad` pair. */
  lemma Doom2IwadPair()
    ensures var store := map[SaveSection := [Line("iwad", "doom2")],
                             IwadsSection := [Line("i1n", "doom2"), Line("i1f", "/iwads/doom2.wad")]];
            IwadPlan(store, "doom2") == [Iwad("/iwads/doom2.wad")]
  {
    var store := map[SaveSection := [Line("iwad", "doom2")],
                     IwadsSection := [Line("i1n", "doom2"), Line("i1f", "/iwads/doom2.wad")]];
    var sec := Lines(store, IwadsSection);
    assert PairedFileKey('i', "i1n") == "i1f";
    assert ValuesOf(sec, "i1f") == ["/iwads/doom2.wad"];
    assert Resolves(sec, 'i', "doom2", 0);
    assert !Resolves(sec, 'i', "doom2", 1);
    assert ResolveFrom(sec, 'i', "doom2", 2) == [];
    assert ResolveFrom(sec, 'i', "doom2", 0) == ["/iwads/doom2.wad"];
  }

  lemma BrutalIsPatch()
    ensures IsPatchName("brutal.deh")
  {
    assert "brutal.deh"[6..] == ".deh";
    assert FoldCaseString(".deh") == ".deh";
  }

  lemma MapIsArchive()
    ensures !IsPatchName("map01.wad")
  {
    var tail := "map01.wad"[5..];
    assert FoldCaseString(tail)[1] == 'w';
    assert FoldCaseString(".deh")[1] == 'd';
    assert FoldCaseString(".bex")[1] == 'b';
  }

  /** A patch listed before an archive still comes after it: `-file` first. */
  lemma ArchiveBeforePatch()
    ensures var store := map[SaveSection := [Line("file1", "brutal.deh"), Line("file2", "map01.wad")]];
            FilePlan(store) == [Files(["map01.wad"]), Dehacked(["brutal.deh"])]
  {
    ScannedTwoFiles();
    SplitPatchAndArchive();
  }

  lemma ScannedTwoFiles()
    ensures FileValues([Line("file1", "brutal.deh"), Line("file2", "map01.wad")]) == ["brutal.deh", "map01.wad"]
  {
    var sec := [Line("file1", "brutal.deh"), Line("file2", "map01.wad")];
    assert IsFileKey("file1") && IsFileKey("file2");
    assert sec[..1] == [sec[0]];
    assert FileValues(sec[..1]) == ["brutal.deh"];
  }

  lemma SplitPatchAndArchive()
    ensures Partition(["brutal.deh", "map01.wad"]) == (["map01.wad"], ["brutal.deh"])
  {
    BrutalIsPatch();
    MapIsArchive();
    var one := ["brutal.deh"];
    var none: seq<string> := [];
    assert one[..0] == none;
    assert Partition(none) == ([], []);
    assert one[..|one| - 1] == none;
    assert none + [one[0]] == one;
    assert Partition(one) == ([], one);
    var two := ["brutal.deh", "map01.wad"];
    assert two[..|two| - 1] == one;
    assert two[|two| - 1] == "map01.wad";
    assert Partition(two) == (Partition(one).0 + ["map01.wad"], Partition(one).1);
    assert none + ["map01.wad"] == ["map01.wad"];
  }

  /** Game type "1" with four players hosts and does not join. */
  lemma FourPlayersHost()
    ensures var store := map[SaveSection := [Line("gametype", "1"), Line("players", "4")]];
            GamePlan(store) == [Host(4)]
  {
    var store := map[SaveSection := [Line("gametype", "1"), Line("players", "4")]];
    assert Get(store, SaveSection, "gametype") == Some("1");
    assert Get(store, SaveSection, "players") == Some("4");
    assert Players(store) == 4;
    assert Get(store, SaveSection, "fraglimit") == None;
  }
}

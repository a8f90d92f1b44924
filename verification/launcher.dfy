/**
 * What a launch request does with the builder's output: resolve the source
 * port executable, refuse to start when there is no executable or nothing
 * to pass, and derive the working directory from the executable's path.
 */
module Launcher {
  import opened Wrappers
  import opened Strings
  import opened Config
  import opened Registry
  import opened Quoting
  import opened Arguments
  import opened Builder

  /** Why no process was started. `NoSourcePort` and `NoIwad` are reported
      with a dialog ("Please select a source port", "Please select an
      IWAD"); `NothingToLaunch` aborts silently. */
  datatype LaunchError = NoSourcePort | NoIwad | NothingToLaunch

  /** The program, its arguments and the directory to start it in. */
  datatype Process = Process(program: string, arguments: seq<string>, workingDirectory: string)

  /** The source port's executable: `save/port` names a port whose `p<d>n`
      line, the first resolving one in section order, gives the path; ""
      when the port is not set or nothing resolves. */
  function Executable(store: Store): (exe: string)
    ensures Get(store, SaveSection, "port").None? ==> exe == ""
    ensures Get(store, SaveSection, "port").Some? ==>
              var sec, name := Lines(store, PortsSection), Get(store, SaveSection, "port").value;
              && ((forall j :: 0 <= j < |sec| ==> !Resolves(sec, 'p', name, j)) ==> exe == "")
              && (forall j :: FirstResolving(sec, 'p', name, j) ==> exe == PairedFile(sec, 'p', j))
  {
    match Get(store, SaveSection, "port")
    case None => ""
    case Some(name) =>
      match ResolveFirst(Lines(store, PortsSection), 'p', name)
      case Some(path) => path
      case None => ""
  }

  /** The executable's path with backslashes turned into slashes. */
  function ProgramPath(exe: string): (path: string)
    ensures |path| == |exe| && '\\' !in path
    ensures forall i :: 0 <= i < |exe| && exe[i] != '\\' ==> path[i] == exe[i]
  {
    ReplaceChar(exe, '\\', '/')
  }

  /** The directory part of the program path: split on '/', drop the last
      part, join again. That is everything before the last '/', or "" when
      there is no '/'. */
  function WorkingDirectory(exe: string): (dir: string)
    ensures var path := ProgramPath(exe);
            && ('/' !in path ==> dir == "")
            && ('/' in path ==> exists k :: 0 <= k < |path| && path[k] == '/' && '/' !in path[k + 1..] && dir == path[..k])
  {
    var path := ProgramPath(exe);
    var parts := Split(path, '/');
    SplitDropLast(path, '/');
    Strings.Join(parts[..|parts| - 1], '/')
  }

  /** A launch request: the executable is checked first, then the joined
      arguments must not be empty. */
  function Launch(store: Store): (r: Result<Process, LaunchError>)
    ensures r == Failure(NoSourcePort) <==> Executable(store) == ""
    ensures r == Failure(NoIwad) <==> Executable(store) != "" && !IwadSelected(store)
    ensures r.Success? <==>
              Executable(store) != "" && exists i :: 0 <= i < |LaunchArguments(store)| && LaunchArguments(store)[i] != ""
    ensures r.Success? ==>
              && r.value.arguments == LaunchArguments(store)
              && r.value.program == ProgramPath(Executable(store))
              && r.value.workingDirectory == WorkingDirectory(Executable(store))
  {
    var exe := Executable(store);
    if |exe| < 1 then Failure(NoSourcePort)
    else
      var args := LaunchArguments(store);
      if |Concat(args)| < 1 then
        if IwadSelected(store) then Failure(NothingToLaunch) else Failure(NoIwad)
      else Success(Process(ProgramPath(exe), args, WorkingDirectory(exe)))
  }

  /** A plan that opens with an IWAD renders to tokens that open with `-iwad`. */
  lemma RenderedIwadFirst(p: seq<Arg>)
    requires |p| > 0 && p[0].Iwad?
    ensures |RenderAll(p)| > 0 && RenderAll(p)[0] == "-iwad"
  {
    assert RenderAll(p) == Render(p[0]) + RenderAll(p[1..]);
  }

  /** When name line `j` resolves the IWAD, the plan opens with an IWAD entry. */
  lemma PlanOpensWithIwad(store: Store, j: int)
    requires IwadSelected(store)
    requires Resolves(Lines(store, IwadsSection), 'i', SelectedIwad(store), j)
    ensures |Plan(store)| > 0 && Plan(store)[0].Iwad?
  {
    var iw := IwadPlan(store, SelectedIwad(store));
    assert |iw| > 0;
    var s, f, g, n := SettingsPlan(store), FilePlan(store), GamePlan(store), NetPlan(store);
    assert iw[0].Iwad?;
    HeadOfAppend(iw, s);
    HeadOfAppend(iw + s, f);
    HeadOfAppend(iw + s + f, g);
    HeadOfAppend(iw + s + f + g, n);
  }

  lemma HeadOfAppend(a: seq<Arg>, b: seq<Arg>)
    requires |a| > 0
    ensures |a + b| > 0 && (a + b)[0] == a[0]
  {
  }

  /** When name line `j` resolves the IWAD, the argument list starts with `-iwad`. */
  lemma LeadingIwadToken(store: Store, j: int)
    requires IwadSelected(store)
    requires Resolves(Lines(store, IwadsSection), 'i', SelectedIwad(store), j)
    ensures |LaunchArguments(store)| > 0 && LaunchArguments(store)[0] == "-iwad"
  {
    var p := Plan(store);
    PlanOpensWithIwad(store, j);
    RenderedIwadFirst(p);
    var tokens := RenderAll(Plan(store));
    assert LaunchArguments(store) == Assemble(tokens, QuotingEnabled(store), Trailing(store));
    IwadFlagUnquoted();
  }

  lemma IwadFlagUnquoted()
    ensures Quote("-iwad") == "-iwad"
  {
    assert !HasSpace("-iwad");
  }

  /** An IWAD that resolves is enough to launch once the executable is
      known: its `-iwad` token alone makes the joined arguments non-empty. */
  lemma ResolvedIwadLaunches(store: Store, j: int)
    requires Executable(store) != "" && IwadSelected(store)
    requires Resolves(Lines(store, IwadsSection), 'i', SelectedIwad(store), j)
    ensures Launch(store).Success?
  {
    LeadingIwadToken(store, j);
    assert LaunchArguments(store)[0] != "";
  }
}

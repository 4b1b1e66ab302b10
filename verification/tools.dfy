/** The three file tools the agent registers: `read_file`, `list_files` and
    `edit_file` (agent/agent.go), over the abstract filesystem. */
module Tools {
  import opened Results
  import opened Text
  import opened FileSystem

  /** A tool's input after `json.Unmarshal`: the fields the tools read, an
      absent field decoding to "", or the decoding error. */
  datatype ToolInput = Fields(path: string, oldStr: string, newStr: string) | Malformed(error: string)

  /** A tool call's effect: the filesystem afterwards, and the tool's
      `(output, error)` pair as `Ok(output)` or `Err(error text)`. */
  datatype ToolReturn = ToolReturn(fs: Tree, result: Result<string, string>)

  // ---------------------------------------------------------------------
  // read_file

  /** `ReadFile`: the whole content of the named regular file. */
  function ReadFileTool(fs: Tree, input: ToolInput): (r: ToolReturn)
    ensures r.fs == fs
    ensures input.Fields? && FileAt(fs, Components(input.path)).Some? && input.path != "" ==>
              r.result == Ok(FileAt(fs, Components(input.path)).value)
    ensures r.result.Ok? ==> input.Fields? && input.path != "" && FileAt(fs, Components(input.path)).Some?
  {
    match input
    case Malformed(e) => ToolReturn(fs, Err(e))
    case Fields(path, _, _) =>
      match ReadFile(fs, path)
      case Ok(c) => ToolReturn(fs, Ok(c))
      case Err(e) => ToolReturn(fs, Err(e.Text()))
  }

  // ---------------------------------------------------------------------
  // list_files

  /** The directory `ListFiles` walks: the current one when no path is given. */
  function ListedDir(path: string): string {
    if path == "" then "." else path
  }

  /** `filepath.Walk` from the listed directory, keeping every visited path
      except the root itself; any error of the walk is the result. */
  function ListFiles(fs: Tree, path: string): (r: Result<seq<Listed>, PathError>)
    ensures r.Ok? <==> Lookup(fs, Components(ListedDir(path))).Ok?
    ensures r.Ok? ==> forall l :: l in r.value ==>
              Found(Lookup(fs, Components(ListedDir(path))).value, l)
    ensures r.Ok? ==> forall q :: |q| > 0 && Lookup(Lookup(fs, Components(ListedDir(path))).value, q).Ok? ==>
              Listed(q, Lookup(Lookup(fs, Components(ListedDir(path))).value, q).value.Dir?) in r.value
  {
    var dir := ListedDir(path);
    match Lookup(fs, Components(dir))
    case Err(e) => Err(PathError("lstat", dir, e))
    case Ok(n) =>
      LookupValid(fs, Components(dir));
      if n.Dir? then
        WalkSound(n, 0);
        forall q | |q| > 0 && Lookup(n, q).Ok?
          ensures Listed(q, Lookup(n, q).value.Dir?) in Walk(n)
        {
          WalkComplete(n, q);
        }
        Ok(Walk(n))
      else
        Ok([])
  }

  /** Every listed entry is a path below the listed directory, resolved from
      the working directory exactly as the walk reports it. */
  lemma ListedEntriesExist(fs: Tree, path: string, l: Listed)
    requires ListFiles(fs, path).Ok? && l in ListFiles(fs, path).value
    ensures |l.path| > 0
    ensures Lookup(fs, Components(ListedDir(path)) + l.path).Ok?
    ensures Lookup(fs, Components(ListedDir(path)) + l.path).value.Dir? == l.isDir
  {
    LookupAppend(fs, Components(ListedDir(path)), l.path);
  }

  /** How one entry is printed: relative path, plus `/` for a directory. */
  function Render(l: Listed): string {
    Join(l.path) + (if l.isDir then "/" else "")
  }

  lemma {:induction false} JoinEndsWithLastName(p: seq<string>)
    requires |p| > 0 && ValidPath(p)
    ensures |Join(p)| > 0 && Join(p)[|Join(p)| - 1] == p[|p| - 1][|p[|p| - 1]| - 1]
    ensures |p| > 1 ==> '/' in Join(p)
    decreases |p|
  {
    if |p| > 1 {
      JoinEndsWithLastName(p[1..]);
      assert Join(p) == p[0] + "/" + Join(p[1..]);
      assert Join(p)[|p[0]|] == '/';
    }
  }

  /** A printed entry is never the root (`""` or `.`), ends in `/` exactly
      when it is a directory, and splits back into the listed path. */
  lemma RenderFaithful(l: Listed)
    requires |l.path| > 0 && ValidPath(l.path)
    ensures var s := Render(l); s != "" && s != "."
    ensures var s := Render(l); (s[|s| - 1] == '/') <==> l.isDir
    ensures Components(Render(l)) == l.path
  {
    var p := l.path;
    JoinEndsWithLastName(p);
    assert ValidName(p[|p| - 1]);
    var last := p[|p| - 1];
    assert last[|last| - 1] in last;
    ComponentsOfJoin(p);
    if l.isDir {
      SegmentsTrailingSlash(Join(p), "");
    } else {
      assert Render(l) == Join(p);
      if |p| == 1 {
        assert Join(p) == p[0];
      }
    }
  }

  /** Every entry `ListFiles` returns is printed faithfully: not as the
      root, with a trailing `/` exactly for a directory, and splitting back
      into the listed path. */
  lemma ListedRenderFaithful(fs: Tree, path: string, l: Listed)
    requires ListFiles(fs, path).Ok? && l in ListFiles(fs, path).value
    ensures var s := Render(l); s != "" && s != "."
    ensures var s := Render(l); (s[|s| - 1] == '/') <==> l.isDir
    ensures Components(Render(l)) == l.path
  {
    var dir := Lookup(fs, Components(ListedDir(path))).value;
    LookupValid(fs, Components(ListedDir(path)));
    LookupNamesValid(dir, l.path);
    RenderFaithful(l);
  }

  /** `json.Marshal` of the entries: `null` for none (a nil slice). String
      escaping is not modelled. */
  function EncodeList(items: seq<string>): string {
    if |items| == 0 then "null" else "[" + Quoted(items) + "]"
  }

  function Quoted(items: seq<string>): string
    decreases |items|
  {
    if |items| == 0 then ""
    else if |items| == 1 then "\"" + items[0] + "\""
    else "\"" + items[0] + "\"," + Quoted(items[1..])
  }

  function RenderAll(ls: seq<Listed>): (r: seq<string>)
    ensures |r| == |ls|
    ensures forall k :: 0 <= k < |ls| ==> r[k] == Render(ls[k])
  {
    seq(|ls|, k requires 0 <= k < |ls| => Render(ls[k]))
  }

  /** `ListFiles`: the rendered walk as JSON, or the walk's error. */
  function ListFilesTool(fs: Tree, input: ToolInput): (r: ToolReturn)
    ensures r.fs == fs
    ensures r.result.Ok? <==> input.Fields? && ListFiles(fs, input.path).Ok?
  {
    match input
    case Malformed(e) => ToolReturn(fs, Err(e))
    case Fields(path, _, _) =>
      match ListFiles(fs, path)
      case Err(e) => ToolReturn(fs, Err(e.Text()))
      case Ok(ls) => ToolReturn(fs, Ok(EncodeList(RenderAll(ls))))
  }

  /** The listing of a directory holding `a.txt` and an empty `b/`. */
  lemma ListingExample()
    ensures var fs: Tree := Dir([Entry("a.txt", File("")), Entry("b", Dir([]))]);
      ListFiles(fs, "").Ok? && RenderAll(ListFiles(fs, "").value) == ["a.txt", "b/"]
  {
    ExampleIsValid(Dir([Entry("a.txt", File("")), Entry("b", Dir([]))]));
    var fs: Tree := Dir([Entry("a.txt", File("")), Entry("b", Dir([]))]);
    RootHasNoComponents("");
    ExampleWalk(fs);
    ExampleRender(Walk(fs));
  }

  lemma ExampleIsValid(n: Node)
    requires n == Dir([Entry("a.txt", File("")), Entry("b", Dir([]))])
    ensures Valid(n)
  {
    assert n.entries[0].name[0] == 'a' && n.entries[1].name[0] == 'b';
    assert Below(n.entries[0].name, n.entries[1].name);
  }

  lemma RootHasNoComponents(path: string)
    requires path == ""
    ensures Components(ListedDir(path)) == []
  {
    var dot := ListedDir(path);
    assert dot == ".";
    assert Segments(dot, "") == Segments(dot[1..], ".");
  }

  lemma ExampleWalk(n: Node)
    requires n == Dir([Entry("a.txt", File("")), Entry("b", Dir([]))])
    ensures Walk(n) == [Listed(["a.txt"], false), Listed(["b"], true)]
  {
    assert WalkFrom(n, 2) == [];
    assert WalkFrom(Dir([]), 0) == [];
    assert WalkFrom(n, 1) == [Listed(["b"], true)];
  }

  lemma ExampleRender(ls: seq<Listed>)
    requires ls == [Listed(["a.txt"], false), Listed(["b"], true)]
    ensures RenderAll(ls) == ["a.txt", "b/"]
  {
    assert Render(ls[0]) == "a.txt";
    assert Render(ls[1]) == "b/";
  }

  // ---------------------------------------------------------------------
  // edit_file

  /** `createNewFile`: creates the parent directories unless the path has
      none, then writes the file. */
  function CreateNewFile(fs: Tree, path: string, content: string): (r: ToolReturn)
    ensures r.result.Ok? ==> r.result.value == "Successfully created file " + path
    ensures r.result.Ok? ==> FileAt(r.fs, Components(path)) == Some(content)
    ensures forall q :: q != Components(path) ==> FileAt(r.fs, q) == FileAt(fs, q)
  {
    var p := Components(path);
    var parent := if |p| == 0 then [] else p[..|p| - 1];
    match (if |parent| > 0 then MakeDirs(fs, parent) else Ok(fs))
    case Err(e) => ToolReturn(fs, Err("failed to create directory: " + e.Text()))
    case Ok(fs') =>
      match WriteFile(fs', path, content)
      case Err(e) => ToolReturn(fs', Err("failed to create file: " + e.Text()))
      case Ok(fs'') => ToolReturn(fs'', Ok("Successfully created file " + path))
  }

  /** `EditFile`: validates the input, creates a missing file when `old_str`
      is empty, and otherwise replaces every occurrence of `old_str` in the
      file's content by `new_str`, failing when nothing changed. */
  function EditFile(fs: Tree, input: ToolInput): (r: ToolReturn)
    ensures forall q :: input.Fields? && q != Components(input.path) ==> FileAt(r.fs, q) == FileAt(fs, q)
  {
    match input
    case Malformed(e) => ToolReturn(fs, Err(e))
    case Fields(path, pat, rep) =>
      if path == "" || pat == rep then ToolReturn(fs, Err("invalid input parameters"))
      else match ReadFile(fs, path)
        case Err(e) =>
          if e.errno == NotExist && pat == "" then CreateNewFile(fs, path, rep)
          else ToolReturn(fs, Err(e.Text()))
        case Ok(content) =>
          var updated := Replace(content, pat, rep);
          if content == updated && pat != "" then ToolReturn(fs, Err("old_str not found in file"))
          else match WriteFile(fs, path, updated)
            case Err(e) => ToolReturn(fs, Err(e.Text()))
            case Ok(fs') => ToolReturn(fs', Ok("OK"))
  }

  /** An empty path, or `old_str` equal to `new_str`, is rejected whatever the
      filesystem holds, and nothing changes. */
  lemma EditFileInvalid(fs: Tree, path: string, pat: string, rep: string)
    requires path == "" || pat == rep
    ensures EditFile(fs, Fields(path, pat, rep)) == ToolReturn(fs, Err("invalid input parameters"))
  {
  }

  /** `createNewFile` succeeds on any path that resolves to nothing. */
  lemma CreateNewFileSucceeds(fs: Tree, path: string, content: string)
    requires path != "" && Lookup(fs, Components(path)) == Err(NotExist)
    ensures CreateNewFile(fs, path, content).result.Ok?
  {
    var p := Components(path);
    MkdirAllForMissing(fs, p, content);
    var parent := p[..|p| - 1];
    if |parent| > 0 {
      var fs' := MakeDirs(fs, parent).value;
      assert WriteAt(fs', p, content).Ok?;
    }
  }

  /** A missing file with an empty `old_str` is created holding exactly
      `new_str`, together with any missing parent directories. */
  lemma EditFileCreates(fs: Tree, path: string, rep: string)
    requires path != "" && rep != ""
    requires Lookup(fs, Components(path)) == Err(NotExist)
    ensures var r := EditFile(fs, Fields(path, "", rep));
      && r.result == Ok("Successfully created file " + path)
      && FileAt(r.fs, Components(path)) == Some(rep)
  {
    assert ReadFile(fs, path) == Err(PathError("open", path, NotExist));
    CreateNewFileSucceeds(fs, path, rep);
  }

  /** A missing file with a non-empty `old_str`, or a path that cannot be
      read for another reason, fails and changes nothing. */
  lemma EditFileUnreadable(fs: Tree, path: string, pat: string, rep: string)
    requires path != "" && pat != rep
    requires FileAt(fs, Components(path)).None?
    requires pat != "" || Lookup(fs, Components(path)) != Err(NotExist)
    ensures var r := EditFile(fs, Fields(path, pat, rep));
      r.result.Err? && r.fs == fs
  {
  }

  /** On an existing file, a non-empty `old_str` that occurs is replaced
      everywhere and "OK" returned; one that does not occur gives "old_str
      not found in file" and changes nothing. */
  lemma EditFileReplaces(fs: Tree, path: string, pat: string, rep: string)
    requires path != "" && pat != rep && pat != ""
    requires FileAt(fs, Components(path)).Some?
    ensures var content := FileAt(fs, Components(path)).value;
      var r := EditFile(fs, Fields(path, pat, rep));
      && (Occurs(content, pat) ==> r.result == Ok("OK") && FileAt(r.fs, Components(path)) == Some(Replace(content, pat, rep)))
      && (!Occurs(content, pat) ==> r == ToolReturn(fs, Err("old_str not found in file")))
  {
    var content := FileAt(fs, Components(path)).value;
    ReplaceUnchangedIffAbsent(content, pat, rep);
    WriteExisting(fs, path, Replace(content, pat, rep));
  }

  /** On an existing file, an empty `old_str` is not checked for: `new_str`
      is written before every character and at the end, and "OK" returned. */
  lemma EditFileEmptyOldStr(fs: Tree, path: string, rep: string)
    requires path != "" && rep != ""
    requires FileAt(fs, Components(path)).Some?
    ensures var content := FileAt(fs, Components(path)).value;
      var r := EditFile(fs, Fields(path, "", rep));
      && r.result == Ok("OK")
      && FileAt(r.fs, Components(path)) == Some(rep + AfterEach(content, rep))
      && FileAt(r.fs, Components(path)) != Some(content)
  {
    var content := FileAt(fs, Components(path)).value;
    ReplaceEmptyOldChanges(content, rep);
    WriteExisting(fs, path, Replace(content, "", rep));
  }

  /** Every failed edit leaves the filesystem as it was. */
  lemma EditFileFailureChangesNothing(fs: Tree, input: ToolInput)
    requires EditFile(fs, input).result.Err?
    ensures EditFile(fs, input).fs == fs
  {
    if input.Fields? && input.path != "" && input.oldStr != input.newStr {
      var path := input.path;
      var p := Components(path);
      if ReadFile(fs, path).Err? && ReadFile(fs, path).error.errno == NotExist && input.oldStr == "" {
        CreateNewFileSucceeds(fs, path, input.newStr);
      } else if ReadFile(fs, path).Ok? {
        WriteExisting(fs, path, Replace(ReadFile(fs, path).value, input.oldStr, input.newStr));
      }
    }
  }
}

/** The tool registry and `executeTool` (agent/agent.go). */
module Dispatch {
  import opened Results
  import opened FileSystem
  import opened Tools
  import opened Events

  /** A registered tool: its name, the description shown to the model, and
      the function that runs it. */
  datatype ToolDef = ToolDef(name: string, description: string, run: (Tree, ToolInput) -> ToolReturn)

  const ReadFileDescription: string :=
    "Read the contents of a given relative file path. Use this when you want to see what's inside a file. Do not use this with directory names."
  const ListFilesDescription: string :=
    "List files and directories at a given path. If no path is provided, lists files in the current directory."
  const EditFileDescription: string :=
    "Make edits to a text file.\n\nReplaces 'old_str' with 'new_str' in the given file. 'old_stir' and 'new_str' MUST be different from each other.\n\nIf the file specified with path doesn't exist, it will be created.\n"

  /** The tools `NewAgent` registers, in registry order. */
  function DefaultTools(): (r: seq<ToolDef>)
    ensures |r| == 3
    ensures r[0].name == "read_file" && r[1].name == "list_files" && r[2].name == "edit_file"
  {
    [ ToolDef("read_file", ReadFileDescription, ReadFileTool),
      ToolDef("list_files", ListFilesDescription, ListFilesTool),
      ToolDef("edit_file", EditFileDescription, EditFile) ]
  }

  /** The position of the first tool called `name`, scanning in registry order. */
  function FindTool(tools: seq<ToolDef>, name: string): (r: Option<nat>)
    ensures r.Some? ==> r.value < |tools| && tools[r.value].name == name
    ensures r.Some? ==> forall j :: 0 <= j < r.value ==> tools[j].name != name
    ensures r.None? <==> forall j :: 0 <= j < |tools| ==> tools[j].name != name
    decreases |tools|
  {
    if |tools| == 0 then None
    else if tools[0].name == name then Some(0)
    else match FindTool(tools[1..], name)
      case None => None
      case Some(i) => Some(i + 1)
  }

  /** A tool_result content block. */
  datatype ToolResult = ToolResult(toolUseId: string, content: string, isError: bool)

  /** What one tool call produced: the filesystem afterwards, the result
      block, and the output events emitted. */
  datatype Execution = Execution(fs: Tree, result: ToolResult, events: seq<OutputEvent>)

  /** The progress note emitted before a tool runs. */
  function UsingTool(name: string): OutputEvent {
    Content("Using tool: " + name + "\n")
  }

  /** `executeTool`: runs the first registered tool with the requested name.
      An unknown name is answered with an error result and no event; a
      known one emits one progress note, then its error becomes an error
      result and its output a plain one. The result always answers `id`. */
  function ExecuteTool(tools: seq<ToolDef>, fs: Tree, id: string, name: string, input: ToolInput): (r: Execution)
    ensures r.result.toolUseId == id
    ensures (forall j :: 0 <= j < |tools| ==> tools[j].name != name) ==>
              r == Execution(fs, ToolResult(id, "tool not found", true), [])
    ensures (exists j :: 0 <= j < |tools| && tools[j].name == name) ==> r.events == [UsingTool(name)]
    ensures r.events == [] || r.events == [UsingTool(name)]
  {
    match FindTool(tools, name)
    case None => Execution(fs, ToolResult(id, "tool not found", true), [])
    case Some(i) =>
      var ret := tools[i].run(fs, input);
      match ret.result
      case Err(e) => Execution(ret.fs, ToolResult(id, e, true), [UsingTool(name)])
      case Ok(out) => Execution(ret.fs, ToolResult(id, out, false), [UsingTool(name)])
  }

  /** The tool that runs is the first in registry order with the name: its
      effect on the filesystem is the call's, and its `(output, error)` pair
      is carried over as `(content, is_error)`. */
  lemma ExecuteToolRunsFirstMatch(tools: seq<ToolDef>, fs: Tree, id: string, name: string, input: ToolInput, i: nat)
    requires i < |tools| && tools[i].name == name
    requires forall j :: 0 <= j < i ==> tools[j].name != name
    ensures var r := ExecuteTool(tools, fs, id, name, input);
      var ret := tools[i].run(fs, input);
      && r.fs == ret.fs
      && (ret.result.Err? ==> r.result == ToolResult(id, ret.result.error, true))
      && (ret.result.Ok? ==> r.result == ToolResult(id, ret.result.value, false))
  {
    assert FindTool(tools, name) == Some(i);
  }

  /** A name not in the default registry is never run. */
  lemma UnknownDefaultTool(fs: Tree, id: string, name: string, input: ToolInput)
    requires name != "read_file" && name != "list_files" && name != "edit_file"
    ensures ExecuteTool(DefaultTools(), fs, id, name, input) ==
      Execution(fs, ToolResult(id, "tool not found", true), [])
  {
    var tools := DefaultTools();
    assert forall j :: 0 <= j < |tools| ==> tools[j].name != name;
  }
}

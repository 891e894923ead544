/** internal/hook/extract.go: the candidate paths each tool's input names. The shell
    parser (`parser.Parse`) is not part of this model; it is the parameter `parse`.
    Go ranges over the parsed flag and environment maps in an unspecified order; the
    model takes that order as given, as a sequence of key/value pairs. */
module Extract {
  import opened Wrappers
  import opened JsonValue

  /** `parser.Command`: the program, its positional arguments, its flags and the
      environment assignments in front of it. */
  datatype Command = Command(program: string, args: seq<string>, flags: seq<(string, string)>, env: seq<(string, string)>)

  /** The non-empty values among the pairs, in order. */
  function NonEmptyValues(kvs: seq<(string, string)>): (r: seq<string>)
    ensures forall v :: v in r <==> v != "" && exists i :: 0 <= i < |kvs| && kvs[i].1 == v
    decreases |kvs|
  {
    if |kvs| == 0 then []
    else
      var init := NonEmptyValues(kvs[..|kvs| - 1]);
      assert forall i :: 0 <= i < |kvs| - 1 ==> kvs[..|kvs| - 1][i] == kvs[i];
      var last := kvs[|kvs| - 1].1;
      if last != "" then init + [last] else init
  }

  /** All the values of the pairs, in order. */
  function AllValues(kvs: seq<(string, string)>): (r: seq<string>)
    ensures |r| == |kvs|
    ensures forall i :: 0 <= i < |kvs| ==> r[i] == kvs[i].1
    decreases |kvs|
  {
    if |kvs| == 0 then [] else AllValues(kvs[..|kvs| - 1]) + [kvs[|kvs| - 1].1]
  }

  /** What a Bash call contributes: every argument, every non-empty flag value and every
      environment value, in that order. */
  function BashPaths(toolInput: map<string, Json>, parse: string -> Command): seq<string>
  {
    match StringField(toolInput, "command")
      case None => []
      case Some(c) =>
        var cmd := parse(c);
        cmd.args + NonEmptyValues(cmd.flags) + AllValues(cmd.env)
  }

  /** extractBashPaths: appends the arguments, then the flag values that are not empty,
      then the environment values. */
  method ExtractBashPaths(toolInput: map<string, Json>, parse: string -> Command) returns (paths: seq<string>)
    ensures paths == BashPaths(toolInput, parse)
  {
    var c := StringField(toolInput, "command");
    if c.None? {
      return [];
    }
    var cmd := parse(c.value);
    paths := cmd.args;
    var i := 0;
    while i < |cmd.flags|
      invariant 0 <= i <= |cmd.flags|
      invariant paths == cmd.args + NonEmptyValues(cmd.flags[..i])
    {
      assert cmd.flags[..i + 1][..i] == cmd.flags[..i];
      if cmd.flags[i].1 != "" {
        paths := paths + [cmd.flags[i].1];
      }
      i := i + 1;
    }
    assert cmd.flags[..i] == cmd.flags;
    var flagged := paths;
    var j := 0;
    while j < |cmd.env|
      invariant 0 <= j <= |cmd.env|
      invariant paths == flagged + AllValues(cmd.env[..j])
    {
      assert cmd.env[..j + 1][..j] == cmd.env[..j];
      paths := paths + [cmd.env[j].1];
      j := j + 1;
    }
    assert cmd.env[..j] == cmd.env;
  }

  /** A Bash call yields exactly its arguments, its non-empty flag values and its
      environment values, and nothing at all without a string `command`. */
  lemma BashPathsMembers(toolInput: map<string, Json>, parse: string -> Command, p: string)
    ensures p in BashPaths(toolInput, parse) <==>
      StringField(toolInput, "command").Some? &&
      var cmd := parse(StringField(toolInput, "command").value);
      p in cmd.args
      || (p != "" && exists i :: 0 <= i < |cmd.flags| && cmd.flags[i].1 == p)
      || (exists i :: 0 <= i < |cmd.env| && cmd.env[i].1 == p)
  {
    var c := StringField(toolInput, "command");
    if c.Some? {
      var cmd := parse(c.value);
      var vs := AllValues(cmd.env);
      if p in vs {
        var k :| 0 <= k < |vs| && vs[k] == p;
        assert cmd.env[k].1 == p;
      }
      if exists i :: 0 <= i < |cmd.env| && cmd.env[i].1 == p {
        var k :| 0 <= k < |cmd.env| && cmd.env[k].1 == p;
        assert vs[k] == p;
      }
    }
  }

  /** extractFilePath: the `file_path` string, alone. */
  function FilePathOf(toolInput: map<string, Json>): (r: seq<string>)
    ensures |r| <= 1
    ensures r == [] <==> StringField(toolInput, "file_path").None?
    ensures r != [] ==> toolInput["file_path"] == Str(r[0])
  {
    match StringField(toolInput, "file_path")
      case Some(fp) => [fp]
      case None => []
  }

  /** extractGlobPaths: `path`, then `pattern`, each when it is a string. */
  function GlobPathsOf(toolInput: map<string, Json>): (r: seq<string>)
    ensures |r| <= 2
    ensures |r| == (if StringField(toolInput, "path").Some? then 1 else 0)
                 + (if StringField(toolInput, "pattern").Some? then 1 else 0)
    ensures StringField(toolInput, "path").Some? ==> r[0] == toolInput["path"].s
    ensures StringField(toolInput, "pattern").Some? ==> r[|r| - 1] == toolInput["pattern"].s
  {
    var fromPath := match StringField(toolInput, "path") case Some(p) => [p] case None => [];
    var fromPattern := match StringField(toolInput, "pattern") case Some(p) => [p] case None => [];
    fromPath + fromPattern
  }

  /** extractGrepPaths: only `path`; the search pattern is never a candidate. */
  function GrepPathsOf(toolInput: map<string, Json>): (r: seq<string>)
    ensures |r| <= 1
    ensures r == [] <==> StringField(toolInput, "path").None?
    ensures r != [] ==> toolInput["path"] == Str(r[0])
  {
    match StringField(toolInput, "path")
      case Some(p) => [p]
      case None => []
  }

  /** ExtractPaths: the per-tool dispatch. Tools it does not name yield nothing. */
  function ExtractPaths(toolName: string, toolInput: map<string, Json>, parse: string -> Command): (r: seq<string>)
    ensures toolName !in {"Bash", "Read", "Write", "Edit", "Glob", "Grep"} ==> r == []
    ensures toolName == "Bash" ==> r == BashPaths(toolInput, parse)
    ensures toolName in {"Read", "Write", "Edit"} ==> r == FilePathOf(toolInput)
    ensures toolName == "Glob" ==> r == GlobPathsOf(toolInput)
    ensures toolName == "Grep" ==> r == GrepPathsOf(toolInput)
    ensures toolName == "Grep" ==> forall i :: 0 <= i < |r| ==> "path" in toolInput && toolInput["path"] == Str(r[i])
  {
    match toolName
      case "Bash" => BashPaths(toolInput, parse)
      case "Read" => FilePathOf(toolInput)
      case "Write" => FilePathOf(toolInput)
      case "Edit" => FilePathOf(toolInput)
      case "Glob" => GlobPathsOf(toolInput)
      case "Grep" => GrepPathsOf(toolInput)
      case _ => []
  }

  /** The Glob tool's pattern is a candidate, the Grep tool's is not. */
  lemma GrepIgnoresPattern(toolInput: map<string, Json>, parse: string -> Command, pattern: string)
    requires "path" !in toolInput
    ensures ExtractPaths("Glob", toolInput["pattern" := Str(pattern)], parse) == [pattern]
    ensures ExtractPaths("Grep", toolInput["pattern" := Str(pattern)], parse) == []
  {
    var m := toolInput["pattern" := Str(pattern)];
    assert StringField(m, "path").None?;
    assert StringField(m, "pattern") == Some(pattern);
  }
}

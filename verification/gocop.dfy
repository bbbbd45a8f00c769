/** CommandParser of gocop.go: the world it owns, the standard help command,
    completion of a line and fresh run contexts. */
module GoCop {
  import opened Wrappers
  import opened Tokens
  import opened Grammar
  import opened Scanner
  import opened Search
  import opened RunContext
  import opened Autocomplete

  /** printHelp, the handler of the help command. */
  const PrintHelp: HandlerId := 0

  /** The help command: runs printHelp, takes one optional argument. */
  function HelpCommand(): (n: Node)
    ensures n.name == "help" && n.flags == {CommandNode} && n.handler == Some(PrintHelp)
    ensures |n.children| == 1
    ensures n.children[0].name == "help_argument" && n.children[0].children == []
    ensures n.children[0].flags == {ArgumentNode, OptionalNode} && n.children[0].repeats == [Repeat(0, 1)]
  {
    var arg := Optional(Argument("help_argument"));
    assert arg.Ok?;
    var help := AddChild(Handler(Command("help"), PrintHelp), arg.value);
    assert help.Ok?;
    help.value
  }

  /** AddStandardCommands: adds the help command under n; a sibling already
      named help is refused. */
  function AddStandardCommands(n: Node): (r: Result<Node, string>)
    ensures r.Err? <==> exists i :: 0 <= i < |n.children| && n.children[i].name == "help"
    ensures r.Ok? ==> r.value.children == n.children + [HelpCommand()]
    ensures r.Ok? ==> r.value.(children := n.children) == n
  {
    AddChild(n, HelpCommand())
  }

  /** The world NewWorld creates: a root with the help command only. */
  function StandardWorld(): (w: Node)
    ensures w.children == [HelpCommand()] && w.(children := []) == NewWorldNode()
  {
    var r := AddStandardCommands(NewWorldNode());
    assert r.Ok?;
    r.value
  }

  /** The usage of the standard world is the help command's single line. */
  lemma StandardUsage()
    ensures UsageOf(StandardWorld(), "\t\t") == ["\t\t help [help_argument?]"]
  {
    var world := StandardWorld();
    HelpUsage();
    assert UsageHead(world) == "";
    assert "\t\t" + "" + " " == "\t\t " && "\t\t" + "" == "\t\t";
    assert UsageFrom(world, 1, "\t\t ", "\t\t") == [];
    assert UsageFrom(world, 0, "\t\t ", "\t\t") == ["\t\t help [help_argument?]"];
  }

  /** The help command's usage line under the world. */
  lemma HelpUsage()
    ensures UsageOf(HelpCommand(), "\t\t ") == ["\t\t help [help_argument?]"]
  {
    var help := HelpCommand();
    HelpNodeUsage(help);
  }

  lemma HelpNodeUsage(help: Node)
    requires help.name == "help" && help.flags == {CommandNode} && |help.children| == 1
    requires help.children[0].name == "help_argument" && help.children[0].children == []
    requires help.children[0].flags == {ArgumentNode, OptionalNode}
    ensures UsageOf(help, "\t\t ") == ["\t\t help [help_argument?]"]
  {
    var arg := help.children[0];
    assert UsageHead(help) == "help";
    assert "\t\t " + "help" + " " == "\t\t help ";
    SingleChildUsage(help, "\t\t ");
    ArgumentHead(arg);
    assert "\t\t help " + "[help_argument?]" == "\t\t help [help_argument?]";
  }

  lemma ArgumentHead(arg: Node)
    requires arg.name == "help_argument" && arg.flags == {ArgumentNode, OptionalNode}
    ensures UsageHead(arg) == "[help_argument?]"
  {
    assert MultiArgNode !in arg.flags;
  }

  /** The usage of a node with a single child is the child's, under the
      node's own head. */
  lemma SingleChildUsage(n: Node, prefix: string)
    requires |n.children| == 1
    ensures UsageOf(n, prefix) == UsageOf(n.children[0], prefix + UsageHead(n) + " ")
  {
    var pr := prefix + UsageHead(n) + " ";
    assert UsageFrom(n, 1, pr, prefix + UsageHead(n)) == [];
  }

  class CommandParser {
    /** The root of the grammar, once NewWorld has made it. */
    var world: Option<Node>

    /** NewCommandParser: a parser without a world. */
    constructor ()
      ensures world == None
    {
      world := None;
    }

    /** NewWorld: replaces the world by a fresh root holding the standard
        commands, and returns it. */
    method NewWorld() returns (w: Node)
      modifies this
      ensures w == StandardWorld() && world == Some(w)
    {
      world := Some(NewWorldNode());
      var r := AddStandardCommands(world.value);
      w := r.value;
      world := Some(w);
    }

    /** The completions AutoCompleter offers for a line. */
    function Completions(line: string, lists: map<string, seq<string>>): (c: seq<string>)
      reads this
    {
      if world.Some? then WorldSuggest(world.value, Lex(line), lists) else []
    }

    /** AutoCompleter: no completions before there is a world; otherwise the
        world's suggestions for the line's tokens. */
    method AutoCompleter(line: string, reg: Registry) returns (c: seq<string>)
      ensures c == Completions(line, reg.lists)
    {
      c := [];
      if world.Some? {
        var tokens := Tokenize(line);
        var sugs := SuggestWorld(world.value, tokens, reg);
        c := c + sugs;
      }
    }

    /** NewRunContext: a fresh, empty run context. */
    method NewRunContext() returns (rc: DefaultRunContext)
      ensures fresh(rc)
      ensures rc.values == map[] && rc.handler == None && rc.invoked == []
    {
      rc := new DefaultRunContext();
    }
  }

  /** Every completion of a line is the text of the line before the leaf of
      one of the line's paths, followed by one of that leaf's suggestions. */
  lemma CompletionsKeepLine(cp: CommandParser, line: string, lists: map<string, seq<string>>, c: string)
    requires c in cp.Completions(line, lists)
    ensures cp.world.Some?
    ensures var paths := GeneratePaths(cp.world.value, Lex(line));
      exists i :: 0 <= i < |paths| && Completes(paths[i], line, lists, c)
  {
    WorldCompletionKeepsLine(cp.world.value, line, lists, c);
  }

  /** c is a completion from path p of the line: the line's text up to p's
      leaf, then one of the leaf's suggestions. */
  ghost predicate Completes(p: Path, line: string, lists: map<string, seq<string>>, c: string)
  {
    && Lead(p) <= line
    && exists s :: s in NodeSuggest(Leaf(p).node, Leaf(p).tokens, lists) && c == Lead(p) + s
  }

  lemma WorldCompletionKeepsLine(w: Node, line: string, lists: map<string, seq<string>>, c: string)
    requires c in WorldSuggest(w, Lex(line), lists)
    ensures var paths := GeneratePaths(w, Lex(line));
      exists i :: 0 <= i < |paths| && Completes(paths[i], line, lists, c)
  {
    var paths := GeneratePaths(w, Lex(line));
    SuggestAllMembers(paths, lists, c);
    var i :| 0 <= i < |paths| && c in PathSuggest(paths[i], lists);
    LineCompletion(w, line, lists, i);
    PathCompletes(paths[i], line, lists, c);
  }

  lemma PathCompletes(p: Path, line: string, lists: map<string, seq<string>>, c: string)
    requires c in PathSuggest(p, lists)
    requires Lead(p) + String(Leaf(p).tokens) + String(Leaf(p).overflow) == line
    ensures Completes(p, line, lists, c)
  {
    var sugs := NodeSuggest(Leaf(p).node, Leaf(p).tokens, lists);
    var r := Prefixed(Lead(p), sugs);
    var j :| 0 <= j < |r| && r[j] == c;
    assert sugs[j] in sugs && c == Lead(p) + sugs[j];
    var rest := String(Leaf(p).tokens) + String(Leaf(p).overflow);
    assert line == Lead(p) + rest;
  }

  /** Conversely, each suggestion of the leaf of each of the line's paths is
      offered, after the line's text up to that leaf. */
  lemma CompletionsOffered(cp: CommandParser, line: string, lists: map<string, seq<string>>, i: nat, s: string)
    requires cp.world.Some? && i < |GeneratePaths(cp.world.value, Lex(line))|
    requires var p := GeneratePaths(cp.world.value, Lex(line))[i];
      s in NodeSuggest(Leaf(p).node, Leaf(p).tokens, lists)
    ensures var p := GeneratePaths(cp.world.value, Lex(line))[i];
      Lead(p) + s in cp.Completions(line, lists)
  {
    var paths := GeneratePaths(cp.world.value, Lex(line));
    var p := paths[i];
    var sugs := NodeSuggest(Leaf(p).node, Leaf(p).tokens, lists);
    var j :| 0 <= j < |sugs| && sugs[j] == s;
    assert Prefixed(Lead(p), sugs)[j] == Lead(p) + s;
    SuggestAllContains(paths, lists, i, Lead(p) + s);
  }

  lemma {:induction false} SuggestAllContains(paths: seq<Path>, lists: map<string, seq<string>>, i: nat, c: string)
    requires i < |paths| && c in PathSuggest(paths[i], lists)
    ensures c in SuggestAll(paths, lists)
    decreases |paths|
  {
    if i < |paths| - 1 {
      var init := paths[..|paths| - 1];
      assert init[i] == paths[i];
      SuggestAllContains(init, lists, i, c);
    }
  }
}

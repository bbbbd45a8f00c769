/** Running a line in arguments.go: invoking a path, picking the path with
    the best score, and the error InvokeCommand returns when none fits. */
module Invocation {
  import opened Wrappers
  import opened Tokens
  import opened Grammar
  import opened Search
  import opened Scanner
  import opened RunContext
  import opened Autocomplete

  // ---------------------------------------------------------------------
  // Invoking a path

  /** The value an argument invoker records for its assignment: the
      assigned text without surrounding whitespace. */
  function Recorded(a: Assignment): string {
    Stringify(a.tokens)
  }

  /** The handler selected after the assignments have run, starting from h. */
  function HandlerAfter(h: Option<HandlerId>, p: seq<Assignment>): Option<HandlerId>
    decreases |p|
  {
    if |p| == 0 then h
    else if p[|p| - 1].node.handler.Some? then p[|p| - 1].node.handler
    else HandlerAfter(h, p[..|p| - 1])
  }

  /** The context's values after the assignments' invokers have run. */
  function ValuesAfter(values: map<string, string>, p: seq<Assignment>): map<string, string>
    decreases |p|
  {
    if |p| == 0 then values
    else
      var before := ValuesAfter(values, p[..|p| - 1]);
      match p[|p| - 1].node.invoker
      case NopInvoker => before
      case ArgumentInvoker(arg) => before[arg := Recorded(p[|p| - 1])]
  }

  /** The registry's lists after the assignments' invokers have run. */
  function ListsAfter(lists: map<string, seq<string>>, p: seq<Assignment>): map<string, seq<string>>
    decreases |p|
  {
    if |p| == 0 then lists
    else
      var before := ListsAfter(lists, p[..|p| - 1]);
      match p[|p| - 1].node.invoker
      case NopInvoker => before
      case ArgumentInvoker(arg) => before[arg := ListOf(before, arg) + [Recorded(p[|p| - 1])]]
  }

  /** The values the path records under name, in path order. */
  function RecordedFor(p: seq<Assignment>, name: string): seq<string>
    decreases |p|
  {
    if |p| == 0 then []
    else
      RecordedFor(p[..|p| - 1], name)
        + if p[|p| - 1].node.invoker == ArgumentInvoker(name) then [Recorded(p[|p| - 1])] else []
  }

  /** commandAssignPath.Invoke: every node on the path, in order, selects its
      handler if it has one and runs its invoker; then the context runs the
      selected handler. */
  method Invoke(p: seq<Assignment>, ctx: DefaultRunContext, reg: Registry)
    modifies ctx, reg
    ensures ctx.values == ValuesAfter(old(ctx.values), p)
    ensures ctx.handler == HandlerAfter(old(ctx.handler), p)
    ensures reg.lists == ListsAfter(old(reg.lists), p)
    ensures ctx.invoked == old(ctx.invoked) + if ctx.handler.Some? then [ctx.handler.value] else []
  {
    var i := 0;
    while i < |p|
      invariant 0 <= i <= |p|
      invariant ctx.values == ValuesAfter(old(ctx.values), p[..i])
      invariant ctx.handler == HandlerAfter(old(ctx.handler), p[..i])
      invariant reg.lists == ListsAfter(old(reg.lists), p[..i])
      invariant ctx.invoked == old(ctx.invoked)
    {
      var ass := p[i];
      assert p[..i + 1][..i] == p[..i];
      if ass.node.handler.Some? {
        ctx.Handler(ass.node.handler.value);
      }
      match ass.node.invoker {
        case NopInvoker =>
        case ArgumentInvoker(arg) =>
          var val := Stringify(ass.tokens);
          reg.Append(arg, val);
          ctx.Put(arg, val);
      }
      i := i + 1;
    }
    assert p[..i] == p;
    ctx.Invoke();
  }

  /** The handler that runs is that of the last node on the path that has
      one. */
  lemma {:induction false} HandlerLast(h: Option<HandlerId>, p: seq<Assignment>, i: nat)
    requires i < |p| && p[i].node.handler.Some?
    requires forall j :: i < j < |p| ==> p[j].node.handler.None?
    ensures HandlerAfter(h, p) == p[i].node.handler
    decreases |p|
  {
    if i < |p| - 1 {
      HandlerLast(h, p[..|p| - 1], i);
    }
  }

  /** When no node on the path has a handler, the earlier selection stays. */
  lemma {:induction false} HandlerKept(h: Option<HandlerId>, p: seq<Assignment>)
    requires forall j :: 0 <= j < |p| ==> p[j].node.handler.None?
    ensures HandlerAfter(h, p) == h
    decreases |p|
  {
    if |p| > 0 {
      HandlerKept(h, p[..|p| - 1]);
    }
  }

  /** The registry keeps every value recorded under a name, after the ones
      it had. */
  lemma {:induction false} ListsRecorded(lists: map<string, seq<string>>, p: seq<Assignment>, name: string)
    ensures ListOf(ListsAfter(lists, p), name) == ListOf(lists, name) + RecordedFor(p, name)
    decreases |p|
  {
    if |p| > 0 {
      var init := p[..|p| - 1];
      var last := p[|p| - 1];
      ListsRecorded(lists, init, name);
      var before := ListsAfter(lists, init);
      var v := Recorded(last);
      assert RecordedFor(p, name) == RecordedFor(init, name) + if last.node.invoker == ArgumentInvoker(name) then [v] else [];
      match last.node.invoker
      case NopInvoker =>
      case ArgumentInvoker(arg) =>
        assert ListsAfter(lists, p) == before[arg := ListOf(before, arg) + [v]];
        ListOfUpdate(before, arg, name, v);
    }
  }

  lemma ListOfUpdate(m: map<string, seq<string>>, arg: string, name: string, v: string)
    ensures ListOf(m[arg := ListOf(m, arg) + [v]], name) == ListOf(m, name) + if arg == name then [v] else []
  {
  }

  /** The context holds the last value recorded under a name; a name the path
      records nothing under keeps what it had. */
  lemma {:induction false} ValuesLastRecorded(values: map<string, string>, p: seq<Assignment>, name: string)
    ensures var r := RecordedFor(p, name);
      && (|r| > 0 ==> name in ValuesAfter(values, p) && ValuesAfter(values, p)[name] == r[|r| - 1])
      && (|r| == 0 ==> (name in ValuesAfter(values, p) <==> name in values))
      && (|r| == 0 && name in values ==> ValuesAfter(values, p)[name] == values[name])
    decreases |p|
  {
    if |p| > 0 {
      var init := p[..|p| - 1];
      var last := p[|p| - 1];
      ValuesLastRecorded(values, init, name);
      var before := ValuesAfter(values, init);
      if last.node.invoker == ArgumentInvoker(name) {
        assert ValuesAfter(values, p) == before[name := Recorded(last)];
        assert RecordedFor(p, name) == RecordedFor(init, name) + [Recorded(last)];
      } else {
        assert RecordedFor(p, name) == RecordedFor(init, name);
        assert name in ValuesAfter(values, p) <==> name in before;
        assert name in before ==> ValuesAfter(values, p)[name] == before[name];
      }
    }
  }

  // ---------------------------------------------------------------------
  // Picking the path to run

  /** The index of the path InvokeCommand runs: the first path with the
      highest score, provided that score is above 0. */
  function Best(paths: seq<Path>): (r: Option<nat>)
    ensures r.None? <==> forall j :: 0 <= j < |paths| ==> Score(paths[j]) <= 0
    ensures r.Some? ==> r.value < |paths| && Score(paths[r.value]) > 0
    ensures r.Some? ==> forall j :: 0 <= j < |paths| ==> Score(paths[j]) <= Score(paths[r.value])
    ensures r.Some? ==> forall j :: 0 <= j < r.value ==> Score(paths[j]) < Score(paths[r.value])
    decreases |paths|
  {
    if |paths| == 0 then None
    else
      var init := paths[..|paths| - 1];
      assert forall j :: 0 <= j < |init| ==> init[j] == paths[j];
      var b := Best(init);
      var s := Score(paths[|paths| - 1]);
      if (b.None? && s > 0) || (b.Some? && s > Score(paths[b.value])) then Some(|paths| - 1) else b
  }

  /** The selection loop of InvokeCommand. */
  method SelectPath(paths: seq<Path>) returns (best: Option<nat>)
    ensures best == Best(paths)
  {
    var min := 0;
    best := None;
    var i := 0;
    while i < |paths|
      invariant 0 <= i <= |paths|
      invariant best == Best(paths[..i])
      invariant best.Some? ==> best.value < i && min == Score(paths[best.value])
      invariant best.None? ==> min == 0
    {
      assert paths[..i + 1][..i] == paths[..i];
      var score := ScorePath(paths[i]);
      if score > min {
        min := score;
        best := Some(i);
      }
      i := i + 1;
    }
    assert paths[..i] == paths;
  }

  // ---------------------------------------------------------------------
  // The error for a line no path fits

  /** strings.Index(s, sub) >= 0: sub occurs in s. */
  predicate Contains(s: string, sub: string)
    decreases |s|
  {
    sub <= s || (|s| > 0 && Contains(s[1..], sub))
  }

  /** sub occurs in s at offset k. */
  predicate OccursAt(s: string, sub: string, k: nat) {
    k + |sub| <= |s| && s[k..k + |sub|] == sub
  }

  /** Contains means an occurrence at some offset, and only that. */
  lemma {:induction false} ContainsAt(s: string, sub: string)
    ensures Contains(s, sub) <==> exists k: nat :: OccursAt(s, sub, k)
    decreases |s|
  {
    if exists k: nat :: OccursAt(s, sub, k) {
      var k: nat :| OccursAt(s, sub, k);
      if k == 0 {
        assert sub <= s;
      } else {
        assert OccursAt(s[1..], sub, k - 1);
        ContainsAt(s[1..], sub);
      }
    }
    if Contains(s, sub) {
      if sub <= s {
        assert OccursAt(s, sub, 0);
      } else {
        ContainsAt(s[1..], sub);
        var k: nat :| OccursAt(s[1..], sub, k);
        assert OccursAt(s, sub, k + 1);
      }
    }
  }

  /** An occurrence in the middle part is an occurrence in the whole. */
  lemma ContainsWithin(a: string, b: string, c: string, sub: string)
    requires Contains(b, sub)
    ensures Contains(a + b + c, sub)
  {
    ContainsAt(b, sub);
    var k: nat :| OccursAt(b, sub, k);
    assert (a + b + c)[|a| + k..|a| + k + |sub|] == b[k..k + |sub|];
    assert OccursAt(a + b + c, sub, |a| + k);
    ContainsAt(a + b + c, sub);
  }

  /** strings.Split(s, " ")[0]: s up to its first space. */
  function FirstField(s: string): (r: string)
    ensures r <= s && ' ' !in r
    ensures |r| < |s| ==> s[|r|] == ' '
    decreases |s|
  {
    if |s| == 0 || s[0] == ' ' then [] else [s[0]] + FirstField(s[1..])
  }

  /** The usage lines that mention cmd, in order. */
  function MatchingUsage(lines: seq<string>, cmd: string): (r: seq<string>)
    ensures |r| <= |lines|
    ensures forall u :: u in r <==> u in lines && Contains(u, cmd)
    decreases |lines|
  {
    if |lines| == 0 then []
    else
      var init := lines[..|lines| - 1];
      assert forall u :: u in lines <==> u in init || u == lines[|lines| - 1];
      MatchingUsage(init, cmd) + if Contains(lines[|lines| - 1], cmd) then [lines[|lines| - 1]] else []
  }

  /** The filter keeps the order of the lines: it distributes over
      concatenation and keeps or drops each line on its own. */
  lemma MatchingUsageAppend(a: seq<string>, b: seq<string>, cmd: string)
    ensures MatchingUsage(a + b, cmd) == MatchingUsage(a, cmd) + MatchingUsage(b, cmd)
    ensures forall u :: MatchingUsage([u], cmd) == if Contains(u, cmd) then [u] else []
  {
    forall u ensures MatchingUsage([u], cmd) == if Contains(u, cmd) then [u] else [] {
      assert [u][..0] == [];
    }
    MatchingUsageConcat(a, b, cmd);
  }

  lemma {:induction false} MatchingUsageConcat(a: seq<string>, b: seq<string>, cmd: string)
    ensures MatchingUsage(a + b, cmd) == MatchingUsage(a, cmd) + MatchingUsage(b, cmd)
    decreases |b|
  {
    if |b| > 0 {
      var b' := b[..|b| - 1];
      var u := b[|b| - 1];
      var last := if Contains(u, cmd) then [u] else [];
      assert (a + b)[..|a + b| - 1] == a + b';
      assert (a + b)[|a + b| - 1] == u;
      MatchingUsageConcat(a, b', cmd);
      assert MatchingUsage(a + b, cmd) == MatchingUsage(a + b', cmd) + last;
      assert MatchingUsage(b, cmd) == MatchingUsage(b', cmd) + last;
    } else {
      assert a + b == a;
    }
  }

  /** InvalidArgument: a message and the usage lines close to the input. */
  datatype InvalidArgument = InvalidArgument(msg: string, usage: seq<string>)

  const Footer := "For full help, type: help\n"

  /** The lines, each ended by a newline. */
  function Lines(us: seq<string>): string
    decreases |us|
  {
    if |us| == 0 then [] else Lines(us[..|us| - 1]) + us[|us| - 1] + "\n"
  }

  /** InvalidArgument.Error: the message, the close matches when there are
      any, and a hint to type help. */
  function ErrorText(e: InvalidArgument): string {
    e.msg + "\n" + (if |e.usage| > 0 then "Close matches:\n" + Lines(e.usage) else "") + Footer
  }

  /** InvalidArgument.Error as the loop of the original. */
  method Error(e: InvalidArgument) returns (s: string)
    ensures s == ErrorText(e)
  {
    var matches := "";
    if |e.usage| > 0 {
      var lines := JoinLines(e.usage);
      matches := "Close matches:\n" + lines;
    }
    s := e.msg + "\n" + matches + Footer;
  }

  /** The usage lines, each followed by a newline, built line by line. */
  method JoinLines(us: seq<string>) returns (lines: string)
    ensures lines == Lines(us)
  {
    lines := "";
    var i := 0;
    while i < |us|
      invariant 0 <= i <= |us|
      invariant lines == Lines(us[..i])
    {
      assert us[..i + 1][..i] == us[..i];
      lines := lines + us[i] + "\n";
      i := i + 1;
    }
    assert us[..i] == us;
  }

  /** Every usage line appears in the lines, ended by its newline. */
  lemma {:induction false} LinesContain(us: seq<string>, i: nat)
    requires i < |us|
    ensures Contains(Lines(us), us[i] + "\n")
    decreases |us|
  {
    var init := us[..|us| - 1];
    if i < |us| - 1 {
      LinesContain(init, i);
      ContainsWithin([], Lines(init), us[|us| - 1] + "\n", us[i] + "\n");
      assert [] + Lines(init) + (us[|us| - 1] + "\n") == Lines(us);
    } else {
      assert Contains(us[i] + "\n", us[i] + "\n");
      ContainsWithin(Lines(init), us[i] + "\n", [], us[i] + "\n");
      assert Lines(init) + (us[i] + "\n") + [] == Lines(us);
    }
  }

  /** The error text starts with the message on its own line, ends with the
      help hint, and shows every close match on a line of its own. */
  lemma ErrorTextParts(e: InvalidArgument)
    ensures e.msg + "\n" <= ErrorText(e)
    ensures |Footer| <= |ErrorText(e)| && ErrorText(e)[|ErrorText(e)| - |Footer|..] == Footer
    ensures forall i :: 0 <= i < |e.usage| ==> Contains(ErrorText(e), e.usage[i] + "\n")
  {
    var text := ErrorText(e);
    forall i | 0 <= i < |e.usage|
      ensures Contains(text, e.usage[i] + "\n")
    {
      LinesContain(e.usage, i);
      ContainsWithin(e.msg + "\n" + "Close matches:\n", Lines(e.usage), Footer, e.usage[i] + "\n");
      assert text == e.msg + "\n" + "Close matches:\n" + Lines(e.usage) + Footer;
    }
  }

  // ---------------------------------------------------------------------
  // Running a line

  /** What InvokeCommand does with a line: nothing for a line without text,
      run the best path, or report the line as unknown. */
  datatype Outcome = Silent | Ran(path: Path) | Unknown(err: InvalidArgument)

  /** The usage prefix of InvokeCommand's error. */
  const UsageIndent := "\t\t"

  function CommandOutcome(root: Node, input: string): Outcome {
    var ts := Lex(input);
    if !HasText(ts) then Silent
    else
      var paths := GeneratePaths(root, ts);
      match Best(paths)
      case Some(i) => Ran(paths[i])
      case None =>
        Unknown(InvalidArgument("Unknown command: " + input, MatchingUsage(UsageOf(root, UsageIndent), FirstField(input))))
  }

  /** InvokeCommand: tokenizes the line, runs the best path and returns no
      error, or returns the error listing the usage lines that mention the
      line's first word. */
  method InvokeCommand(root: Node, input: string, ctx: DefaultRunContext, reg: Registry) returns (err: Option<InvalidArgument>)
    modifies ctx, reg
    ensures CommandOutcome(root, input).Unknown? ==> err == Some(CommandOutcome(root, input).err)
    ensures !CommandOutcome(root, input).Unknown? ==> err == None
    ensures CommandOutcome(root, input).Ran? ==>
      var p := CommandOutcome(root, input).path;
      && ctx.values == ValuesAfter(old(ctx.values), p)
      && ctx.handler == HandlerAfter(old(ctx.handler), p)
      && reg.lists == ListsAfter(old(reg.lists), p)
      && ctx.invoked == old(ctx.invoked) + if ctx.handler.Some? then [ctx.handler.value] else []
    ensures !CommandOutcome(root, input).Ran? ==> unchanged(ctx) && unchanged(reg)
  {
    err := None;
    var tokens := Tokenize(input);
    if HasText(tokens) {
      var paths := GenerateCommandAssignPaths(root, tokens);
      var best := SelectPath(paths);
      if best.Some? {
        assert CommandOutcome(root, input) == Ran(paths[best.value]);
        Invoke(paths[best.value], ctx, reg);
      } else {
        var lines := Usage(root, UsageIndent);
        var usage := FilterUsage(lines, FirstField(input));
        err := Some(InvalidArgument("Unknown command: " + input, usage));
        assert CommandOutcome(root, input) == Unknown(err.value);
      }
    } else {
      assert CommandOutcome(root, input) == Silent;
    }
  }

  /** The usage lines InvokeCommand keeps for its error: those that mention
      the command word, in order. */
  method FilterUsage(lines: seq<string>, cmd: string) returns (usage: seq<string>)
    ensures usage == MatchingUsage(lines, cmd)
  {
    usage := [];
    var i := 0;
    while i < |lines|
      invariant 0 <= i <= |lines|
      invariant usage == MatchingUsage(lines[..i], cmd)
    {
      assert lines[..i + 1][..i] == lines[..i];
      if Contains(lines[i], cmd) {
        usage := usage + [lines[i]];
      }
      i := i + 1;
    }
    assert lines[..i] == lines;
  }

  /** A line has text exactly when it holds a character that is not a space. */
  lemma LexHasText(s: string)
    ensures HasText(Lex(s)) <==> exists i :: 0 <= i < |s| && !IsSpace(s[i])
  {
    var j := SpaceEnd(s, 0);
    if j < |s| {
      var ws := Blanks(s, 0, j);
      assert Lex(s) == ws + LexWordFrom(s, j);
      assert Lex(s)[|ws|] == LexWordFrom(s, j)[0];
      assert !IsWhitespace(Lex(s)[|ws|]);
    }
  }

  /** A line of spaces does nothing. */
  lemma OutcomeSilent(root: Node, input: string)
    ensures CommandOutcome(root, input).Silent? <==> forall i :: 0 <= i < |input| ==> IsSpace(input[i])
  {
    LexHasText(input);
  }

  /** The path that runs has the best score of all paths generated for the
      line, a positive one; when it is no longer than 50 nodes it took the
      whole line, every token of it. */
  lemma OutcomeRan(root: Node, input: string)
    requires CommandOutcome(root, input).Ran?
    ensures var p := CommandOutcome(root, input).path;
      && p in GeneratePaths(root, Lex(input)) && Score(p) > 0
      && (forall q :: q in GeneratePaths(root, Lex(input)) ==> Score(q) <= Score(p))
      && (|p| <= 50 ==> TokensOf(p) == Lex(input) && PathText(p) == input)
  {
    var ts := Lex(input);
    var paths := GeneratePaths(root, ts);
    var p := CommandOutcome(root, input).path;
    GeneratedPaths(root, ts);
    if |p| <= 50 {
      PositiveScore(p);
      PathTextIsString(p);
      LexRoundTrip(input);
    }
  }

  /** A line with text that no path scores above 0 for is reported as an
      unknown command, with the usage lines that mention its first word. */
  lemma OutcomeUnknown(root: Node, input: string)
    ensures CommandOutcome(root, input).Unknown? <==>
      HasText(Lex(input)) && forall q :: q in GeneratePaths(root, Lex(input)) ==> Score(q) <= 0
    ensures CommandOutcome(root, input).Unknown? ==>
      var e := CommandOutcome(root, input).err;
      && e.msg == "Unknown command: " + input
      && forall u :: u in e.usage <==> u in UsageOf(root, UsageIndent) && Contains(u, FirstField(input))
  {
  }
}

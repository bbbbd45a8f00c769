/** The grammar tree of arguments.go: nodes, their construction, and how a
    node accepts a slice of tokens. */
module Grammar {
  import opened Wrappers
  import opened Tokens

  /** Handlers are functions supplied by the program that uses the library;
      the model only records which one would run. */
  type HandlerId = nat

  datatype NodeFlag = WorldNode | CommandNode | ArgumentNode | OptionalNode | MultiArgNode

  /** The suggestion function a node carries. */
  datatype Sugestor = WorldSugestor | CommandSugestor | ArgumentSugestor(arg: string)

  /** The invoker function a node carries. */
  datatype Invoker = NopInvoker | ArgumentInvoker(arg: string)

  /** The accept function a node starts with, before any Times wraps it. */
  datatype BaseAcceptor = WorldAcceptor | CommandAcceptor | SingleArgumentAcceptor

  /** The unsigned 64-bit integers Times takes its bounds in. */
  type Uint64 = x: int | 0 <= x < 0x1_0000_0000_0000_0000

  /** Go's int(x) for a uint64 on a 64-bit platform: the values from 2^63 on
      come out negative. */
  function GoInt(x: Uint64): int {
    if x < 0x8000_0000_0000_0000 then x else x - 0x1_0000_0000_0000_0000
  }

  /** One application of Times(min, max) to a node's accept function. */
  datatype Repeat = Repeat(min: Uint64, max: Uint64)

  /** A node of the grammar. Its accept function is its base acceptor wrapped
      once per entry of repeats, innermost first. */
  datatype Node = Node(
    name: string,
    children: seq<Node>,
    flags: set<NodeFlag>,
    sugestor: Sugestor,
    invoker: Invoker,
    acceptor: BaseAcceptor,
    repeats: seq<Repeat>,
    handler: Option<HandlerId>)

  /** A node together with the tokens assigned to it and the tokens left over
      for the nodes below it. */
  datatype Assignment = Assignment(node: Node, tokens: TokenSet, overflow: TokenSet)

  // ---------------------------------------------------------------------
  // Construction

  /** NewWorldNode: the unnamed root. */
  function NewWorldNode(): (n: Node)
    ensures n.name == [] && n.children == [] && n.flags == {WorldNode}
    ensures n.sugestor == WorldSugestor && n.acceptor == WorldAcceptor
    ensures n.repeats == [] && n.handler == None
  {
    Node([], [], {WorldNode}, WorldSugestor, NopInvoker, WorldAcceptor, [], None)
  }

  /** The node AddSubCommand creates: a command that accepts its own name. */
  function Command(name: string): (n: Node)
    ensures n.name == name && n.children == [] && n.flags == {CommandNode}
    ensures n.sugestor == CommandSugestor && n.invoker == NopInvoker && n.acceptor == CommandAcceptor
    ensures n.repeats == [] && n.handler == None
  {
    Node(name, [], {CommandNode}, CommandSugestor, NopInvoker, CommandAcceptor, [], None)
  }

  /** The node AddArgument creates: it takes one word, suggests and records
      values under its own name. */
  function Argument(name: string): (n: Node)
    ensures n.name == name && n.children == [] && n.flags == {ArgumentNode}
    ensures n.sugestor == ArgumentSugestor(name) && n.invoker == ArgumentInvoker(name)
    ensures n.acceptor == SingleArgumentAcceptor && n.repeats == [] && n.handler == None
  {
    Node(name, [], {ArgumentNode}, ArgumentSugestor(name), ArgumentInvoker(name), SingleArgumentAcceptor, [], None)
  }

  /** AddCustomNode: appends a child, refusing (a panic in the original) a
      child whose name a sibling already has. */
  function AddChild(parent: Node, child: Node): (r: Result<Node, string>)
    ensures r.Err? <==> exists i :: 0 <= i < |parent.children| && parent.children[i].name == child.name
    ensures r.Ok? ==> r.value == parent.(children := parent.children + [child])
  {
    if exists i :: 0 <= i < |parent.children| && parent.children[i].name == child.name then
      Err("Sibling not allowed")
    else
      Ok(parent.(children := parent.children + [child]))
  }

  /** Handler: attaches the function to run when a path through the node is
      invoked. */
  function Handler(n: Node, h: HandlerId): (r: Node)
    ensures r.handler == Some(h) && r.(handler := n.handler) == n
  {
    n.(handler := Some(h))
  }

  /** Times(min, max): the node may be matched between min and max times;
      min 0 makes it optional, max above 1 makes it repeatable. Bounds that
      make no sense, and a node that is already optional or repeatable, are
      refused (panics in the original). */
  function Times(n: Node, min: Uint64, max: Uint64): (r: Result<Node, string>)
    ensures r.Err? <==> max < min || max < 1 || OptionalNode in n.flags || MultiArgNode in n.flags
    ensures r.Ok? ==> r.value.repeats == n.repeats + [Repeat(min, max)]
    ensures r.Ok? ==> (OptionalNode in r.value.flags <==> min == 0)
    ensures r.Ok? ==> (MultiArgNode in r.value.flags <==> max > 1)
    ensures r.Ok? ==> r.value.flags - {OptionalNode, MultiArgNode} == n.flags - {OptionalNode, MultiArgNode}
    ensures r.Ok? ==> r.value.(flags := n.flags, repeats := n.repeats) == n
  {
    if max < min || max < 1 then Err("Cant deal with min and max")
    else if OptionalNode in n.flags || MultiArgNode in n.flags then
      Err("Already set to optional or multi use. Can not modify again.")
    else
      var flags := n.flags + (if min == 0 then {OptionalNode} else {}) + (if max > 1 then {MultiArgNode} else {});
      Ok(n.(flags := flags, repeats := n.repeats + [Repeat(min, max)]))
  }

  /** Optional: Times(0, 1). */
  function Optional(n: Node): (r: Result<Node, string>)
    ensures r.Err? <==> OptionalNode in n.flags || MultiArgNode in n.flags
    ensures r.Ok? ==> r.value.repeats == n.repeats + [Repeat(0, 1)]
    ensures r.Ok? ==> r.value.flags == n.flags + {OptionalNode}
  {
    Times(n, 0, 1)
  }

  // ---------------------------------------------------------------------
  // Splitting off the tokens of one argument

  /** The split consumeArgumentTokens makes once it has looked at the
      tokens before i: it moves past whitespace and end-of-input tokens and
      cuts before the first other token, or at the end. */
  function SplitFrom(ts: TokenSet, i: nat): (r: (TokenSet, TokenSet))
    requires 1 <= i <= |ts|
    ensures r.0 + r.1 == ts && i <= |r.0|
    ensures forall k :: i <= k < |r.0| ==> IsWhitespace(r.0[k])
    ensures |r.1| > 0 ==> !IsWhitespace(r.1[0])
    decreases |ts| - i
  {
    if i < |ts| && IsWhitespace(ts[i]) then SplitFrom(ts, i + 1)
    else
      assert ts[..i] + ts[i..] == ts;
      (ts[..i], ts[i..])
  }

  /** consumeArgumentTokens: the first token and the whitespace after it, and
      the tokens from the next word on. */
  function Consume(ts: TokenSet): (r: (TokenSet, TokenSet))
    ensures r.0 + r.1 == ts
    ensures |ts| > 0 <==> |r.0| > 0
    ensures forall k :: 1 <= k < |r.0| ==> IsWhitespace(r.0[k])
    ensures |r.1| > 0 ==> !IsWhitespace(r.1[0])
  {
    if |ts| == 0 then ([], []) else SplitFrom(ts, 1)
  }

  /** The split Consume makes is the only one with its three properties. */
  lemma ConsumeUnique(ts: TokenSet, c: TokenSet, rest: TokenSet)
    requires c + rest == ts && |c| > 0
    requires forall k :: 1 <= k < |c| ==> IsWhitespace(c[k])
    requires |rest| > 0 ==> !IsWhitespace(rest[0])
    ensures Consume(ts) == (c, rest)
  {
    SplitFromUnique(ts, 1, c, rest);
  }

  lemma {:induction false} SplitFromUnique(ts: TokenSet, i: nat, c: TokenSet, rest: TokenSet)
    requires c + rest == ts && 1 <= i <= |c|
    requires forall k :: i <= k < |c| ==> IsWhitespace(c[k])
    requires |rest| > 0 ==> !IsWhitespace(rest[0])
    ensures SplitFrom(ts, i) == (c, rest)
    decreases |ts| - i
  {
    if i < |c| {
      assert ts[i] == c[i];
      SplitFromUnique(ts, i + 1, c, rest);
    } else {
      assert i < |ts| ==> ts[i] == rest[0];
      assert ts[..i] == c && ts[i..] == rest;
    }
  }

  /** consumeArgumentTokens as the loop of the original. */
  method ConsumeArgumentTokens(ts: TokenSet) returns (consumed: TokenSet, remaining: TokenSet)
    ensures (consumed, remaining) == Consume(ts)
  {
    consumed, remaining := [], [];
    if |ts| > 0 {
      var split := 1;
      while split < |ts| && IsWhitespace(ts[split])
        invariant 1 <= split <= |ts|
        invariant SplitFrom(ts, split) == SplitFrom(ts, 1)
        decreases |ts| - split
      {
        split := split + 1;
      }
      consumed := ts[..split];
      remaining := ts[split..];
    }
  }

  // ---------------------------------------------------------------------
  // Acceptance

  /** An assignment takes at least one token of in, and leaves the rest of in
      as its overflow. */
  predicate SplitsInput(r: seq<Assignment>, ts: TokenSet) {
    forall i :: 0 <= i < |r| ==> |r[i].tokens| > 0 && r[i].tokens + r[i].overflow == ts
  }

  lemma SplitsAppend(a: seq<Assignment>, b: seq<Assignment>, ts: TokenSet)
    requires SplitsInput(a, ts) && SplitsInput(b, ts)
    ensures SplitsInput(a + b, ts)
  {
    forall i | 0 <= i < |a + b|
      ensures |(a + b)[i].tokens| > 0 && (a + b)[i].tokens + (a + b)[i].overflow == ts
    {
      if i >= |a| {
        assert (a + b)[i] == b[i - |a|];
      }
    }
  }

  /** The test commandAcceptorFn applies: a single token whose trimmed text
      starts the command's name, or, among several tokens, a first word
      whose value is the name. A set of several tokens without a word (a
      panic in the original, and never produced by the tokenizer) is
      refused. */
  predicate CommandMatches(name: string, ts: TokenSet) {
    || (|ts| == 1 && Stringify(ts) <= name)
    || (|ts| > 1 && |Filter(ts, NoWhitespace)| > 0 && ToString(Filter(ts, NoWhitespace)[0]) == name)
  }

  /** The accept function a node is created with. */
  function BaseAccept(n: Node, ts: TokenSet): (r: seq<Assignment>)
    ensures SplitsInput(r, ts) && |r| <= 1
    ensures forall i :: 0 <= i < |r| ==> r[i].node == n && (r[i].tokens, r[i].overflow) == Consume(ts)
    ensures n.acceptor == CommandAcceptor ==> (|r| == 1 <==> CommandMatches(n.name, ts))
    ensures n.acceptor == SingleArgumentAcceptor ==> (|r| == 1 <==> |ts| > 0)
  {
    var (c, rest) := Consume(ts);
    match n.acceptor
    case WorldAcceptor => []
    case CommandAcceptor => if |ts| > 0 && CommandMatches(n.name, ts) then [Assignment(n, c, rest)] else []
    case SingleArgumentAcceptor => if |c| > 0 then [Assignment(n, c, rest)] else []
  }

  /** A node's accept function: its base acceptor wrapped by every Times. */
  function Accept(n: Node, ts: TokenSet): (r: seq<Assignment>)
    ensures SplitsInput(r, ts)
    decreases n, |n.repeats|, 0, 0, 0, 1
  {
    AcceptLayer(n, |n.repeats|, ts)
  }

  /** The accept function after the first k applications of Times. Each one
      keeps what the inner function accepts, adds the children's assignments
      of the same tokens when the node may be skipped (min 0), and adds the
      repetitions of every single match when it may repeat (max above 1). */
  function AcceptLayer(n: Node, k: nat, ts: TokenSet): (r: seq<Assignment>)
    requires k <= |n.repeats|
    ensures SplitsInput(r, ts)
    decreases n, k, 0, 0, 0, 0
  {
    if k == 0 then BaseAccept(n, ts)
    else
      var rep := n.repeats[k - 1];
      var one := AcceptLayer(n, k - 1, ts);
      var skip := if rep.min < 1 then ChildrenAccept(n, 0, ts) else [];
      var more := if rep.max > 1 then RepeatFrom(n, k - 1, one, GoInt(rep.max - 1), ts) else [];
      SplitsAppend(one, skip, ts);
      SplitsAppend(one + skip, more, ts);
      one + skip + more
  }

  /** The repetitions started from each of the single matches. */
  function RepeatFrom(n: Node, k: nat, one: seq<Assignment>, count: int, ts: TokenSet): (r: seq<Assignment>)
    requires k < |n.repeats| && SplitsInput(one, ts)
    ensures SplitsInput(r, ts)
    decreases n, k, 2, 0, 0, |one|
  {
    if |one| == 0 then []
    else
      var head := RepeatAccept(n, k, one[0].tokens, one[0].overflow, count);
      var tail := RepeatFrom(n, k, one[1..], count, ts);
      SplitsAppend(head, tail, ts);
      head + tail
  }

  /** repeatAcceptPerm: up to count more matches of the inner accept function
      on what is left, each reported with all the tokens taken so far; none
      when count is not positive. */
  function RepeatAccept(n: Node, k: nat, prefix: TokenSet, rest: TokenSet, count: int): (r: seq<Assignment>)
    requires k < |n.repeats| && |prefix| > 0
    ensures SplitsInput(r, prefix + rest)
    ensures forall a :: a in r ==> prefix < a.tokens
    ensures count <= 0 ==> r == []
    decreases n, k, 1, count, 1, 0
  {
    if count <= 0 then []
    else RepeatEach(n, k, prefix, rest, AcceptLayer(n, k, rest), count)
  }

  function RepeatEach(n: Node, k: nat, prefix: TokenSet, rest: TokenSet, matches: seq<Assignment>, count: int): (r: seq<Assignment>)
    requires k < |n.repeats| && |prefix| > 0 && count >= 1 && SplitsInput(matches, rest)
    ensures SplitsInput(r, prefix + rest)
    ensures forall a :: a in r ==> prefix < a.tokens
    decreases n, k, 1, count, 0, |matches|
  {
    if |matches| == 0 then []
    else
      var na := matches[0];
      var full := prefix + na.tokens;
      assert full + na.overflow == prefix + rest;
      var deeper := RepeatAccept(n, k, full, na.overflow, count - 1);
      var others := RepeatEach(n, k, prefix, rest, matches[1..], count);
      SplitsAppend([Assignment(na.node, full, na.overflow)], deeper, prefix + rest);
      SplitsAppend([Assignment(na.node, full, na.overflow)] + deeper, others, prefix + rest);
      [Assignment(na.node, full, na.overflow)] + deeper + others
  }

  /** assignChildNodes: the assignments of every child from the i-th on, in
      order. */
  function ChildrenAccept(n: Node, i: nat, ts: TokenSet): (r: seq<Assignment>)
    requires i <= |n.children|
    ensures SplitsInput(r, ts)
    decreases n, 0, 3, 0, 0, |n.children| - i
  {
    if i == |n.children| then []
    else
      var head := Accept(n.children[i], ts);
      var tail := ChildrenAccept(n, i + 1, ts);
      SplitsAppend(head, tail, ts);
      head + tail
  }

  /** assignChildNodes as the loop of the original. */
  method AssignChildNodes(n: Node, ts: TokenSet) returns (r: seq<Assignment>)
    ensures r == ChildrenAccept(n, 0, ts)
    ensures SplitsInput(r, ts)
  {
    r := [];
    var i := 0;
    while i < |n.children|
      invariant 0 <= i <= |n.children|
      invariant r + ChildrenAccept(n, i, ts) == ChildrenAccept(n, 0, ts)
    {
      r := r + Accept(n.children[i], ts);
      i := i + 1;
    }
  }

  // ---------------------------------------------------------------------
  // What acceptance means

  /** A node that has never been wrapped accepts as its base function does. */
  lemma AcceptPlain(n: Node, ts: TokenSet)
    requires n.repeats == []
    ensures Accept(n, ts) == BaseAccept(n, ts)
  {
  }

  /** A command accepts exactly when its name matches, and then takes the
      first token and the whitespace after it. */
  lemma CommandAccept(name: string, ts: TokenSet)
    ensures |Accept(Command(name), ts)| == 1 <==> CommandMatches(name, ts)
    ensures |Accept(Command(name), ts)| <= 1
    ensures forall a :: a in Accept(Command(name), ts) ==> a.node == Command(name) && (a.tokens, a.overflow) == Consume(ts)
  {
  }

  /** An argument takes any non-empty token set: one word and the whitespace
      after it. */
  lemma ArgumentAccept(name: string, ts: TokenSet)
    ensures Accept(Argument(name), ts) == if |ts| == 0 then [] else [Assignment(Argument(name), Consume(ts).0, Consume(ts).1)]
  {
  }

  /** A node made optional may be skipped: every assignment its children make
      of the same tokens is among its own. */
  lemma OptionalSkips(n: Node, ts: TokenSet)
    requires Optional(n).Ok?
    ensures var m := Optional(n).value;
      forall a :: a in ChildrenAccept(n, 0, ts) ==> a in Accept(m, ts)
  {
    var m := Optional(n).value;
    assert m.children == n.children;
    ChildrenAcceptSame(n, m, 0, ts);
  }

  lemma {:induction false} ChildrenAcceptSame(n: Node, m: Node, i: nat, ts: TokenSet)
    requires n.children == m.children && i <= |n.children|
    ensures ChildrenAccept(n, i, ts) == ChildrenAccept(m, i, ts)
    decreases |n.children| - i
  {
    if i < |n.children| {
      ChildrenAcceptSame(n, m, i + 1, ts);
    }
  }

  /** A node without the optional flag never lets its children take its
      place: all it accepts comes from its own base acceptor or its
      repetitions, so each assignment is of the node itself. */
  lemma {:induction false} RequiredNodeAssigned(n: Node, k: nat, ts: TokenSet)
    requires k <= |n.repeats|
    requires forall j :: 0 <= j < k ==> n.repeats[j].min >= 1
    ensures forall a :: a in AcceptLayer(n, k, ts) ==> a.node == n
    decreases k, 0, 0, 0, 0
  {
    if k > 0 {
      RequiredNodeAssigned(n, k - 1, ts);
      RequiredLayer(n, k, ts);
      var rep := n.repeats[k - 1];
      if rep.max > 1 {
        RepeatFromNode(n, k - 1, AcceptLayer(n, k - 1, ts), GoInt(rep.max - 1), ts);
      }
    }
  }

  /** A layer whose node may not be skipped adds no children's
      assignments. */
  lemma RequiredLayer(n: Node, k: nat, ts: TokenSet)
    requires 0 < k <= |n.repeats| && n.repeats[k - 1].min >= 1
    ensures var rep := n.repeats[k - 1];
      forall a :: a in AcceptLayer(n, k, ts) ==>
        || a in AcceptLayer(n, k - 1, ts)
        || (rep.max > 1 && a in RepeatFrom(n, k - 1, AcceptLayer(n, k - 1, ts), GoInt(rep.max - 1), ts))
  { }

  lemma {:induction false} RepeatFromNode(n: Node, k: nat, one: seq<Assignment>, count: int, ts: TokenSet)
    requires k < |n.repeats| && SplitsInput(one, ts)
    requires forall j :: 0 <= j <= k ==> n.repeats[j].min >= 1
    requires forall a :: a in one ==> a.node == n
    ensures forall a :: a in RepeatFrom(n, k, one, count, ts) ==> a.node == n
    decreases k, 2, 0, 0, |one|
  {
    if |one| > 0 {
      RepeatAcceptNode(n, k, one[0].tokens, one[0].overflow, count);
      RepeatFromNode(n, k, one[1..], count, ts);
    }
  }

  lemma {:induction false} RepeatAcceptNode(n: Node, k: nat, prefix: TokenSet, rest: TokenSet, count: int)
    requires k < |n.repeats| && |prefix| > 0
    requires forall j :: 0 <= j <= k ==> n.repeats[j].min >= 1
    ensures forall a :: a in RepeatAccept(n, k, prefix, rest, count) ==> a.node == n
    decreases k, 1, count, 1, 0
  {
    if count > 0 {
      RequiredNodeAssigned(n, k, rest);
      RepeatEachNode(n, k, prefix, rest, AcceptLayer(n, k, rest), count);
    }
  }

  lemma {:induction false} RepeatEachNode(n: Node, k: nat, prefix: TokenSet, rest: TokenSet, matches: seq<Assignment>, count: int)
    requires k < |n.repeats| && |prefix| > 0 && count >= 1 && SplitsInput(matches, rest)
    requires forall j :: 0 <= j <= k ==> n.repeats[j].min >= 1
    requires forall a :: a in matches ==> a.node == n
    ensures forall a :: a in RepeatEach(n, k, prefix, rest, matches, count) ==> a.node == n
    decreases k, 1, count, 0, |matches|
  {
    if |matches| > 0 {
      var na := matches[0];
      RepeatAcceptNode(n, k, prefix + na.tokens, na.overflow, count - 1);
      RepeatEachNode(n, k, prefix, rest, matches[1..], count);
    }
  }

  // ---------------------------------------------------------------------
  // Weight, optional branches and usage lines

  /** Weight: a command scores 2 when the trimmed text assigned to it is its
      name and -100 otherwise; every other node scores 1. */
  function Weight(n: Node, ts: TokenSet): (w: int)
    ensures w == 2 <==> CommandNode in n.flags && Stringify(ts) == n.name
    ensures w == -100 <==> CommandNode in n.flags && Stringify(ts) != n.name
    ensures w == 1 <==> CommandNode !in n.flags
  {
    if CommandNode in n.flags then
      if Stringify(ts) != n.name then -100 else 2
    else 1
  }

  /** A node is an optional branch when it is optional and either has no
      children or has a child that is an optional branch. */
  predicate OptionalBranch(n: Node)
    decreases n
  {
    OptionalNode in n.flags &&
      (|n.children| == 0 || exists i :: 0 <= i < |n.children| && OptionalBranch(n.children[i]))
  }

  /** isOptionalBranch as the loop of the original. */
  method IsOptionalBranch(n: Node) returns (b: bool)
    ensures b == OptionalBranch(n)
    decreases n
  {
    if OptionalNode !in n.flags {
      return false;
    }
    if |n.children| == 0 {
      return true;
    }
    var i := 0;
    while i < |n.children|
      invariant 0 <= i <= |n.children|
      invariant forall j :: 0 <= j < i ==> !OptionalBranch(n.children[j])
    {
      var c := IsOptionalBranch(n.children[i]);
      if c {
        return true;
      }
      i := i + 1;
    }
    return false;
  }

  /** A route of child indices from n down to a leaf that passes only through
      optional nodes. */
  ghost predicate OptionalRoute(n: Node, route: seq<nat>)
    decreases |route|
  {
    OptionalNode in n.flags &&
      if |route| == 0 then |n.children| == 0
      else route[0] < |n.children| && OptionalRoute(n.children[route[0]], route[1..])
  }

  /** An optional branch is a node from which the whole rest of a command can
      be left out: there is a route of optional nodes down to a leaf. */
  lemma {:induction false} OptionalBranchHasRoute(n: Node) returns (route: seq<nat>)
    requires OptionalBranch(n)
    ensures OptionalRoute(n, route)
    decreases n
  {
    if |n.children| == 0 {
      route := [];
    } else {
      var i :| 0 <= i < |n.children| && OptionalBranch(n.children[i]);
      var rest := OptionalBranchHasRoute(n.children[i]);
      route := [i] + rest;
      assert route[1..] == rest;
    }
  }

  lemma {:induction false} OptionalRouteIsBranch(n: Node, route: seq<nat>)
    requires OptionalRoute(n, route)
    ensures OptionalBranch(n)
    decreases |route|
  {
    if |route| > 0 {
      OptionalRouteIsBranch(n.children[route[0]], route[1..]);
    }
  }

  /** The head of a usage line for one node: an argument in brackets, a
      repeatable node marked with a star and an optional one with a question
      mark. */
  function UsageHead(n: Node): (h: string)
    ensures |h| >= |n.name|
  {
    (if ArgumentNode in n.flags then "[" else "")
      + n.name
      + (if MultiArgNode in n.flags then "*" else "")
      + (if OptionalNode in n.flags then "?" else "")
      + (if ArgumentNode in n.flags then "]" else "")
  }

  /** The number of leaves below n, n itself when it has no children. */
  function Leaves(n: Node): nat
    decreases n, 1
  {
    if |n.children| == 0 then 1 else LeavesFrom(n, 0)
  }

  function LeavesFrom(n: Node, i: nat): nat
    requires i <= |n.children|
    decreases n, 0, |n.children| - i
  {
    if i == |n.children| then 0 else Leaves(n.children[i]) + LeavesFrom(n, i + 1)
  }

  /** Usage: one line per leaf, each the heads of the nodes on the way down,
      separated by spaces, after the given prefix. */
  function UsageOf(n: Node, prefix: string): (r: seq<string>)
    ensures |r| == Leaves(n)
    ensures forall j :: 0 <= j < |r| ==> prefix + UsageHead(n) <= r[j]
    decreases n, 1
  {
    if |n.children| == 0 then [prefix + UsageHead(n)]
    else UsageFrom(n, 0, prefix + UsageHead(n) + " ", prefix + UsageHead(n))
  }

  function UsageFrom(n: Node, i: nat, pr: string, prefix: string): (r: seq<string>)
    requires i <= |n.children| && prefix <= pr
    ensures |r| == LeavesFrom(n, i)
    ensures forall j :: 0 <= j < |r| ==> prefix <= r[j]
    decreases n, 0, |n.children| - i
  {
    if i == |n.children| then []
    else
      var head := UsageOf(n.children[i], pr);
      var tail := UsageFrom(n, i + 1, pr, prefix);
      assert forall j :: 0 <= j < |head| ==> prefix <= pr <= pr + UsageHead(n.children[i]) <= head[j];
      head + tail
  }

  /** A route from n down to a leaf, as the indices of the children taken. */
  ghost predicate LeafRoute(n: Node, route: seq<nat>)
    decreases |route|
  {
    if |route| == 0 then |n.children| == 0
    else route[0] < |n.children| && LeafRoute(n.children[route[0]], route[1..])
  }

  /** The heads of the nodes along a route, separated by spaces. */
  ghost function RouteLine(n: Node, route: seq<nat>): string
    requires LeafRoute(n, route)
    decreases |route|
  {
    if |route| == 0 then UsageHead(n)
    else UsageHead(n) + " " + RouteLine(n.children[route[0]], route[1..])
  }

  /** u is the prefix followed by the heads along some route from n down to
      a leaf. */
  ghost predicate RouteUsageLine(n: Node, prefix: string, u: string)
  {
    exists route: seq<nat> :: LeafRoute(n, route) && u == prefix + RouteLine(n, route)
  }

  /** Each usage line is the prefix followed by the heads along a route
      from the node down to a leaf, and each such route has its line. */
  lemma UsageRoutes(n: Node, prefix: string)
    ensures forall u :: u in UsageOf(n, prefix) ==> RouteUsageLine(n, prefix, u)
    ensures forall route :: LeafRoute(n, route) ==> prefix + RouteLine(n, route) in UsageOf(n, prefix)
  {
    forall u | u in UsageOf(n, prefix)
      ensures RouteUsageLine(n, prefix, u)
    {
      var route := UsageRoute(n, prefix, u);
    }
    forall route | LeafRoute(n, route)
      ensures prefix + RouteLine(n, route) in UsageOf(n, prefix)
    {
      RouteUsage(n, prefix, route);
    }
  }

  lemma {:induction false} UsageRoute(n: Node, prefix: string, u: string) returns (route: seq<nat>)
    requires u in UsageOf(n, prefix)
    ensures LeafRoute(n, route) && u == prefix + RouteLine(n, route)
    decreases n, 1
  {
    var h := prefix + UsageHead(n);
    if |n.children| == 0 {
      route := [];
    } else {
      var j, rest := UsageFromRoute(n, 0, h + " ", h, u);
      route := [j] + rest;
      assert route[1..] == rest;
      var line := RouteLine(n.children[j], rest);
      assert RouteLine(n, route) == UsageHead(n) + " " + line;
      assert u == prefix + (UsageHead(n) + " " + line);
    }
  }

  lemma {:induction false} UsageFromRoute(n: Node, i: nat, pr: string, prefix: string, u: string)
    returns (j: nat, route: seq<nat>)
    requires i <= |n.children| && prefix <= pr && u in UsageFrom(n, i, pr, prefix)
    ensures i <= j < |n.children| && LeafRoute(n.children[j], route)
    ensures u == pr + RouteLine(n.children[j], route)
    decreases n, 0, |n.children| - i
  {
    if u in UsageOf(n.children[i], pr) {
      j := i;
      route := UsageRoute(n.children[i], pr, u);
    } else {
      j, route := UsageFromRoute(n, i + 1, pr, prefix, u);
    }
  }

  lemma {:induction false} RouteUsage(n: Node, prefix: string, route: seq<nat>)
    requires LeafRoute(n, route)
    ensures prefix + RouteLine(n, route) in UsageOf(n, prefix)
    decreases |route|
  {
    var h := prefix + UsageHead(n);
    if |route| > 0 {
      var c := n.children[route[0]];
      RouteUsage(c, h + " ", route[1..]);
      var line := RouteLine(c, route[1..]);
      assert prefix + RouteLine(n, route) == h + " " + line;
      UsageFromContains(n, 0, h + " ", h, route[0], h + " " + line);
    }
  }

  lemma {:induction false} UsageFromContains(n: Node, i: nat, pr: string, prefix: string, k: nat, u: string)
    requires i <= k < |n.children| && prefix <= pr && u in UsageOf(n.children[k], pr)
    ensures u in UsageFrom(n, i, pr, prefix)
    decreases |n.children| - i
  {
    if i < k {
      UsageFromContains(n, i + 1, pr, prefix, k, u);
    }
  }

  /** Usage as the loop of the original. */
  method Usage(n: Node, prefix: string) returns (ret: seq<string>)
    ensures ret == UsageOf(n, prefix)
    decreases n
  {
    var head := prefix + UsageHead(n);
    if |n.children| == 0 {
      return [head];
    }
    var pr := head + " ";
    ret := [];
    var i := 0;
    while i < |n.children|
      invariant 0 <= i <= |n.children|
      invariant ret + UsageFrom(n, i, pr, head) == UsageOf(n, prefix)
    {
      var lines := Usage(n.children[i], pr);
      ret := ret + lines;
      i := i + 1;
    }
  }
}

/** The search for assignment paths in arguments.go: parseNext, the
    trampoline that drives it, generateCommandAssingPaths and Score. */
module Search {
  import opened Wrappers
  import opened Tokens
  import opened Grammar

  /** commandAssignPath: the assignments from the first node below the root
      down to the leaf; never empty. */
  type Path = p: seq<Assignment> | |p| > 0 witness [Assignment(NewWorldNode(), [], [])]

  function Leaf(p: Path): Assignment {
    p[|p| - 1]
  }

  /** The paths parseNext reports for a leaf that took all of its input: the
      path itself, and when the leaf's text ends with the end-of-input token,
      the path extended by each child of the leaf with no tokens, as
      candidates for completion. */
  function Reported(p: Path): (r: seq<Path>)
    ensures |r| >= 1 && r[0] == p
    ensures forall j :: 1 <= j < |r| ==> |r[j]| == |p| + 1 && r[j][..|p|] == p && Leaf(r[j]).tokens == [] && Leaf(r[j]).overflow == []
  {
    var leaf := Leaf(p);
    [p] + if HasText(leaf.tokens) && leaf.tokens[|leaf.tokens| - 1].kind == TokenEOF then
      Extend(p, Untouched(leaf.node.children))
    else []
  }

  /** The path extended by each of the given assignments in turn. */
  function Extend(p: Path, more: seq<Assignment>): (r: seq<Path>)
    ensures |r| == |more| && forall j :: 0 <= j < |r| ==> r[j] == p + [more[j]]
  {
    if |more| == 0 then [] else Extend(p, more[..|more| - 1]) + [p + [more[|more| - 1]]]
  }

  /** An assignment of no tokens to each of the nodes. */
  function Untouched(ns: seq<Node>): (r: seq<Assignment>)
    ensures |r| == |ns| && forall j :: 0 <= j < |r| ==> r[j] == Assignment(ns[j], [], [])
  {
    if |ns| == 0 then [] else Untouched(ns[..|ns| - 1]) + [Assignment(ns[|ns| - 1], [], [])]
  }

  /** One call of parseNext on a path: the paths it reports, and, when the
      leaf's overflow can be assigned to the leaf's children, the chain of
      continuations it returns (the path extended by each assignment, in
      order). A path whose overflow no child takes is reported only when its
      leaf has no children. */
  function ParseNext(p: Path): (r: (seq<Path>, Option<seq<Path>>))
    ensures r.1.Some? ==> |Leaf(p).overflow| > 0 && |r.0| == 0 && |r.1.value| > 0
    ensures r.1.None? && |Leaf(p).overflow| > 0 ==> r.0 == if |Leaf(p).node.children| == 0 then [p] else []
    ensures |Leaf(p).overflow| == 0 ==> r == (Reported(p), None)
  {
    var leaf := Leaf(p);
    if |leaf.overflow| > 0 then
      var perm := ChildrenAccept(leaf.node, 0, leaf.overflow);
      if |perm| > 0 then ([], Some(Extend(p, perm)))
      else if |leaf.node.children| == 0 then ([p], None)
      else ([], None)
    else (Reported(p), None)
  }

  /** parseNext continues exactly when some child takes tokens from the
      leaf's overflow, and the chain it returns extends the path by each of
      the children's assignments in order. */
  lemma ParseNextChain(p: Path)
    requires |Leaf(p).overflow| > 0
    ensures ParseNext(p).1.Some? <==> |ChildrenAccept(Leaf(p).node, 0, Leaf(p).overflow)| > 0
    ensures ParseNext(p).1.Some? ==> ParseNext(p).1.value == Extend(p, ChildrenAccept(Leaf(p).node, 0, Leaf(p).overflow))
  {
  }

  /** The continuations parseNext returns extend the path by one assignment
      that takes tokens from the leaf's overflow, so their overflow is
      shorter: the search terminates. */
  lemma ParseNextShrinks(p: Path)
    requires ParseNext(p).1.Some?
    ensures var ps := ParseNext(p).1.value;
      && (forall j :: 0 <= j < |ps| ==> |ps[j]| == |p| + 1 && ps[j][..|p|] == p)
      && (forall j :: 0 <= j < |ps| ==> Leaf(ps[j]).tokens + Leaf(ps[j]).overflow == Leaf(p).overflow && |Leaf(ps[j]).tokens| > 0)
      && MaxOverflow(ps) < |Leaf(p).overflow|
  {
    var leaf := Leaf(p);
    var perm := ChildrenAccept(leaf.node, 0, leaf.overflow);
    var ps := Extend(p, perm);
    forall j | 0 <= j < |ps|
      ensures |ps[j]| == |p| + 1 && ps[j][..|p|] == p
      ensures Leaf(ps[j]).tokens + Leaf(ps[j]).overflow == leaf.overflow && |Leaf(ps[j]).tokens| > 0
    {
      assert ps[j] == p + [perm[j]];
      assert Leaf(ps[j]) == perm[j];
    }
  }

  /** parseNext as the code of the original. */
  method ParseNextStep(p: Path) returns (reported: seq<Path>, next: Option<seq<Path>>)
    ensures (reported, next) == ParseNext(p)
  {
    var leaf := p[|p| - 1];
    assert leaf == Leaf(p);
    reported, next := [], None;
    if |leaf.overflow| > 0 {
      var perm := AssignChildNodes(leaf.node, leaf.overflow);
      if |perm| > 0 {
        var calls := Fork(p, perm);
        next := Some(calls);
      } else if |leaf.node.children| == 0 {
        reported := [p];
      }
    } else {
      reported := [p];
      if HasText(leaf.tokens) && leaf.tokens[|leaf.tokens| - 1].kind == TokenEOF {
        var candidates := Fork(p, Untouched(leaf.node.children));
        reported := reported + candidates;
      }
      assert reported == Reported(p);
    }
  }

  /** The loop of parseNext that forks the path once per assignment. */
  method Fork(p: Path, more: seq<Assignment>) returns (forks: seq<Path>)
    ensures forks == Extend(p, more)
  {
    forks := [];
    var i := 0;
    while i < |more|
      invariant 0 <= i <= |more|
      invariant forks == Extend(p, more[..i])
    {
      assert more[..i + 1][..i] == more[..i];
      forks := forks + [p + [more[i]]];
      i := i + 1;
    }
    assert more[..i] == more;
  }

  /** The largest leaf overflow among pending paths. */
  function MaxOverflow(ps: seq<Path>): (m: nat)
    ensures forall j :: 0 <= j < |ps| ==> |Leaf(ps[j]).overflow| <= m
    ensures |ps| > 0 ==> exists j :: 0 <= j < |ps| && |Leaf(ps[j]).overflow| == m
  {
    if |ps| == 0 then 0
    else
      var rest := MaxOverflow(ps[1..]);
      assert forall j :: 1 <= j < |ps| ==> ps[j] == ps[1..][j - 1];
      if |Leaf(ps[0]).overflow| >= rest then |Leaf(ps[0]).overflow| else rest
  }

  /** Everything the trampoline reports from a chain of pending parseNext
      calls: the first one runs; if it returns a chain, the chain replaces
      all of the pending calls (the remaining ones are dropped); otherwise
      the next pending call runs. */
  function Drive(pending: seq<Path>): seq<Path>
    decreases MaxOverflow(pending), |pending|
  {
    if |pending| == 0 then []
    else
      var r := ParseNext(pending[0]);
      match r.1
      case Some(ps) =>
        ParseNextShrinks(pending[0]);
        r.0 + Drive(ps)
      case None =>
        assert MaxOverflow(pending[1..]) <= MaxOverflow(pending) by {
          assert forall j :: 0 <= j < |pending[1..]| ==> pending[1..][j] == pending[j + 1];
        }
        r.0 + Drive(pending[1..])
  }

  /** generateCommandAssingPaths from the given first assignments: each one
      starts a path and the trampoline runs until it stops. */
  function GenerateFrom(firsts: seq<Assignment>): seq<Path>
  {
    if |firsts| == 0 then [] else Drive([[firsts[0]]]) + GenerateFrom(firsts[1..])
  }

  /** All the paths the root's children make of the tokens. */
  function GeneratePaths(root: Node, ts: TokenSet): seq<Path>
  {
    GenerateFrom(ChildrenAccept(root, 0, ts))
  }

  /** The trampoline loop of generateCommandAssingPaths for one first
      assignment: run the returned continuation until there is none. */
  method Trampoline(first: Path) returns (paths: seq<Path>)
    ensures paths == Drive([first])
  {
    paths := [];
    var pending: seq<Path> := [first];
    while |pending| > 0
      invariant paths + Drive(pending) == Drive([first])
      decreases MaxOverflow(pending), |pending|
    {
      DriveUnfold(pending);
      var reported, next := ParseNextStep(pending[0]);
      paths := paths + reported;
      if next.Some? {
        pending := next.value;
      } else {
        pending := pending[1..];
      }
    }
  }

  /** Drive unfolded once, with the measure that makes it terminate. */
  lemma DriveUnfold(pending: seq<Path>)
    requires |pending| > 0
    ensures var r := ParseNext(pending[0]);
      && (r.1.Some? ==> Drive(pending) == r.0 + Drive(r.1.value) && MaxOverflow(r.1.value) < MaxOverflow(pending))
      && (r.1.None? ==> Drive(pending) == r.0 + Drive(pending[1..]) && MaxOverflow(pending[1..]) <= MaxOverflow(pending))
  {
    var r := ParseNext(pending[0]);
    if r.1.Some? {
      ParseNextShrinks(pending[0]);
    } else {
      assert forall j :: 0 <= j < |pending[1..]| ==> pending[1..][j] == pending[j + 1];
    }
  }

  /** generateCommandAssingPaths as the loops of the original. */
  method GenerateCommandAssignPaths(root: Node, ts: TokenSet) returns (paths: seq<Path>)
    ensures paths == GeneratePaths(root, ts)
  {
    var firsts := AssignChildNodes(root, ts);
    paths := [];
    var i := 0;
    while i < |firsts|
      invariant 0 <= i <= |firsts|
      invariant paths + GenerateFrom(firsts[i..]) == GenerateFrom(firsts)
    {
      assert firsts[i..][1..] == firsts[i + 1..] && firsts[i..][0] == firsts[i];
      var found := Trampoline([firsts[i]]);
      paths := paths + found;
      i := i + 1;
    }
  }

  // ---------------------------------------------------------------------
  // What the search finds

  /** A path divides the tokens among its assignments: the first assignment
      splits the input, and each later one splits what the one before it
      left over. */
  ghost predicate Covers(p: Path, ts: TokenSet) {
    && p[0].tokens + p[0].overflow == ts
    && forall i :: 1 <= i < |p| ==> p[i].tokens + p[i].overflow == p[i - 1].overflow
  }

  /** A reported path either took all of its input or ends at a node without
      children that could take the rest. */
  predicate Finished(p: Path) {
    |Leaf(p).overflow| == 0 || |Leaf(p).node.children| == 0
  }

  /** The tokens of all the assignments of a path, in order. */
  function TokensOf(p: seq<Assignment>): TokenSet
  {
    if |p| == 0 then [] else TokensOf(p[..|p| - 1]) + p[|p| - 1].tokens
  }

  /** A path that covers the input holds all of it, in order, followed by
      what its leaf left over. */
  lemma {:induction false} CoversConcat(p: Path, ts: TokenSet)
    requires Covers(p, ts)
    ensures TokensOf(p) + Leaf(p).overflow == ts
    decreases |p|
  {
    if |p| > 1 {
      var q: Path := p[..|p| - 1];
      assert Covers(q, ts);
      CoversConcat(q, ts);
      assert TokensOf(p) == TokensOf(q) + Leaf(p).tokens;
    }
  }

  lemma CoversExtend(p: Path, a: Assignment, ts: TokenSet)
    requires Covers(p, ts) && a.tokens + a.overflow == Leaf(p).overflow
    ensures Covers(p + [a], ts)
  {
  }

  /** Every path the trampoline reports from covering paths covers the input
      and is finished. */
  lemma {:induction false} DriveCovers(pending: seq<Path>, ts: TokenSet)
    requires forall j :: 0 <= j < |pending| ==> Covers(pending[j], ts)
    ensures forall q :: q in Drive(pending) ==> Covers(q, ts) && Finished(q)
    decreases MaxOverflow(pending), |pending|
  {
    if |pending| > 0 {
      var p := pending[0];
      var r := ParseNext(p);
      ReportedCovers(p, ts);
      match r.1
      case Some(ps) =>
        ParseNextShrinks(p);
        forall j | 0 <= j < |ps|
          ensures Covers(ps[j], ts)
        {
          assert ps[j] == p + [Leaf(ps[j])];
          CoversExtend(p, Leaf(ps[j]), ts);
        }
        DriveCovers(ps, ts);
      case None =>
        assert MaxOverflow(pending[1..]) <= MaxOverflow(pending) by {
          assert forall j :: 0 <= j < |pending[1..]| ==> pending[1..][j] == pending[j + 1];
        }
        DriveCovers(pending[1..], ts);
    }
  }

  /** What one call of parseNext reports covers the input and is finished. */
  lemma ReportedCovers(p: Path, ts: TokenSet)
    requires Covers(p, ts)
    ensures forall q :: q in ParseNext(p).0 ==> Covers(q, ts) && Finished(q)
  {
    if |Leaf(p).overflow| == 0 {
      var r := Reported(p);
      forall j | 1 <= j < |r|
        ensures Covers(r[j], ts)
      {
        assert r[j] == p + [Leaf(r[j])];
        CoversExtend(p, Leaf(r[j]), ts);
      }
    }
  }

  /** Every path generated for a line covers the line's tokens and is
      finished; a path whose leaf took everything holds exactly the line's
      tokens. */
  lemma GeneratedPaths(root: Node, ts: TokenSet)
    ensures forall q :: q in GeneratePaths(root, ts) ==> Covers(q, ts) && Finished(q)
    ensures forall q :: q in GeneratePaths(root, ts) && |Leaf(q).overflow| == 0 ==> TokensOf(q) == ts
  {
    GeneratedFrom(ChildrenAccept(root, 0, ts), ts);
    forall q | q in GeneratePaths(root, ts) && |Leaf(q).overflow| == 0
      ensures TokensOf(q) == ts
    {
      CoversConcat(q, ts);
    }
  }

  lemma {:induction false} GeneratedFrom(firsts: seq<Assignment>, ts: TokenSet)
    requires forall j :: 0 <= j < |firsts| ==> firsts[j].tokens + firsts[j].overflow == ts
    ensures forall q :: q in GenerateFrom(firsts) ==> Covers(q, ts) && Finished(q)
  {
    if |firsts| > 0 {
      var first: Path := [firsts[0]];
      DriveCovers([first], ts);
      GeneratedFrom(firsts[1..], ts);
    }
  }

  // ---------------------------------------------------------------------
  // Score

  /** The sum of the weights of the assignments. */
  function SumWeights(p: seq<Assignment>): int
  {
    if |p| == 0 then 0 else SumWeights(p[..|p| - 1]) + Weight(p[|p| - 1].node, p[|p| - 1].tokens)
  }

  /** A node with a child that is an optional branch. */
  predicate HasOptionalChild(n: Node) {
    exists i :: 0 <= i < |n.children| && OptionalBranch(n.children[i])
  }

  /** Score: the weights of the path, less 100 when the leaf left tokens over
      or took none, and less 100 when the leaf has children none of which is
      an optional branch. */
  function Score(p: Path): int
  {
    var leaf := Leaf(p);
    SumWeights(p)
      - (if |leaf.overflow| > 0 || |leaf.tokens| == 0 then 100 else 0)
      - (if |leaf.node.children| > 0 && !HasOptionalChild(leaf.node) then 100 else 0)
  }

  /** Score as the loops of the original. */
  method ScorePath(p: Path) returns (score: int)
    ensures score == Score(p)
  {
    score := 0;
    var i := 0;
    while i < |p|
      invariant 0 <= i <= |p|
      invariant score == SumWeights(p[..i])
    {
      assert p[..i + 1][..i] == p[..i];
      score := score + Weight(p[i].node, p[i].tokens);
      i := i + 1;
    }
    assert p[..i] == p;
    var leaf := p[|p| - 1];
    if |leaf.overflow| > 0 || |leaf.tokens| == 0 {
      score := score - 100;
    }
    if |leaf.node.children| > 0 {
      var j := 0;
      while j < |leaf.node.children|
        invariant 0 <= j <= |leaf.node.children|
        invariant forall k :: 0 <= k < j ==> !OptionalBranch(leaf.node.children[k])
      {
        var optional := IsOptionalBranch(leaf.node.children[j]);
        if optional {
          return;
        }
        j := j + 1;
      }
      score := score - 100;
    }
  }

  /** Each weight is at most 2, and a command whose text is not its name
      costs 100. */
  lemma {:induction false} SumWeightsBound(p: seq<Assignment>)
    ensures SumWeights(p) <= 2 * |p|
    ensures (exists i :: 0 <= i < |p| && Weight(p[i].node, p[i].tokens) == -100) ==> SumWeights(p) <= 2 * |p| - 102
    decreases |p|
  {
    if |p| > 0 {
      var q := p[..|p| - 1];
      SumWeightsBound(q);
      if exists i :: 0 <= i < |p| && Weight(p[i].node, p[i].tokens) == -100 {
        var i :| 0 <= i < |p| && Weight(p[i].node, p[i].tokens) == -100;
        if i < |p| - 1 {
          assert q[i] == p[i];
        }
      }
    }
  }

  /** The penalties decide: a path of at most 50 assignments that scores
      above zero took all of the input, gave its leaf at least one token, ends
      where the command may end, and matched every command's name exactly. */
  lemma PositiveScore(p: Path)
    requires Score(p) > 0 && |p| <= 50
    ensures |Leaf(p).overflow| == 0 && |Leaf(p).tokens| > 0
    ensures |Leaf(p).node.children| == 0 || HasOptionalChild(Leaf(p).node)
    ensures forall i :: 0 <= i < |p| && CommandNode in p[i].node.flags ==> Stringify(p[i].tokens) == p[i].node.name
  {
    SumWeightsBound(p);
  }

  /** A path never scores more than twice its length. */
  lemma ScoreBound(p: Path)
    ensures Score(p) <= 2 * |p|
  {
    SumWeightsBound(p);
  }
}

/** Completion in autocomplete.go: the registry of argument values, the
    suggestion functions of the nodes, and the completions of a whole line. */
module Autocomplete {
  import opened Wrappers
  import opened Tokens
  import opened Grammar
  import opened Search
  import opened Scanner

  /** argumentAutoMap: for each argument name, the values seen for it so far.
      A name that was never registered reads as an empty list. */
  class Registry {
    var lists: map<string, seq<string>>

    constructor ()
      ensures lists == map[]
    {
      lists := map[];
    }

    /** The values recorded under name. */
    function List(name: string): (r: seq<string>)
      reads this
      ensures name in lists ==> r == lists[name]
      ensures name !in lists ==> r == []
    {
      ListOf(lists, name)
    }

    /** getArgumentAutoSlice: the list registered under name, registering an
        empty one on first use. */
    method GetArgumentAutoSlice(name: string) returns (slice: seq<string>)
      modifies this
      ensures lists == if name in old(lists) then old(lists) else old(lists)[name := []]
      ensures slice == List(name) == old(List(name))
      ensures forall other :: List(other) == old(List(other))
    {
      if name !in lists {
        lists := lists[name := []];
      }
      slice := lists[name];
    }

    /** What the argument invoker does to the registry: appends the value to
        the list of name. */
    method Append(name: string, value: string)
      modifies this
      ensures lists == old(lists)[name := old(List(name)) + [value]]
      ensures List(name) == old(List(name)) + [value]
      ensures forall other :: other != name ==> List(other) == old(List(other))
    {
      lists := lists[name := List(name) + [value]];
    }
  }

  function ListOf(lists: map<string, seq<string>>, name: string): seq<string>
  {
    if name in lists then lists[name] else []
  }

  // ---------------------------------------------------------------------
  // The suggestion functions of the nodes

  /** commandSugestorFn: the command's name, when a single token's raw text
      starts it. */
  function CommandSuggest(n: Node, ts: TokenSet): (r: seq<string>)
    ensures |r| <= 1
    ensures |r| == 1 <==> |ts| == 1 && ts[0].val <= n.name
    ensures forall s :: s in r ==> s == n.name
  {
    if |ts| == 1 && ts[0].val <= n.name then [n.name] else []
  }

  /** A command that suggests itself for a token would also accept it. */
  lemma CommandSuggestAccepted(n: Node, ts: TokenSet)
    requires |CommandSuggest(n, ts)| > 0
    ensures CommandMatches(n.name, ts)
  {
    var t := ts[0];
    if IsWhitespace(t) {
      assert !HasText(ts);
    } else {
      assert HasText(ts);
      assert Trimmed(ts) == [t];
      assert String([t]) == t.val + String([]);
    }
  }

  /** The registered values that start with val, in order. */
  function StartingWith(list: seq<string>, val: string): (r: seq<string>)
    ensures forall s :: s in r ==> s in list && val <= s
    ensures forall s :: s in list && val <= s ==> s in r
    ensures |r| <= |list|
  {
    if |list| == 0 then []
    else
      var rest := StartingWith(list[1..], val);
      assert forall s :: s in list ==> s == list[0] || s in list[1..];
      if val <= list[0] then [list[0]] + rest else rest
  }

  /** Filtering keeps the order of the values: it distributes over
      concatenation and keeps or drops each value on its own. */
  lemma {:induction false} StartingWithAppend(a: seq<string>, b: seq<string>, val: string)
    ensures StartingWith(a + b, val) == StartingWith(a, val) + StartingWith(b, val)
    ensures forall s :: StartingWith([s], val) == if val <= s then [s] else []
    decreases |a|
  {
    forall s ensures StartingWith([s], val) == if val <= s then [s] else [] {
      assert [s][1..] == [];
    }
    if |a| > 0 {
      assert (a + b)[1..] == a[1..] + b;
      StartingWithAppend(a[1..], b, val);
    } else {
      assert a + b == b;
    }
  }

  /** The argument suggestion function: for at most one token, the values
      registered for the argument that start with the token's raw text, or
      all of them when there is no text; nothing for more tokens. */
  function ArgumentSuggest(list: seq<string>, ts: TokenSet): (r: seq<string>)
    ensures |ts| > 1 ==> r == []
    ensures |ts| <= 1 && |String(ts)| == 0 ==> r == list
    ensures |ts| <= 1 ==> forall s :: s in list && String(ts) <= s <==> s in r
  {
    if |ts| <= 1 then
      var val := String(ts);
      if |val| > 0 then StartingWith(list, val) else list
    else []
  }

  /** For at most one token the suggestions keep the registry's order and
      its duplicates: each registered value is offered, in place, exactly
      when the token's text starts it. */
  lemma ArgumentSuggestAppend(a: seq<string>, b: seq<string>, ts: TokenSet)
    requires |ts| <= 1
    ensures ArgumentSuggest(a + b, ts) == ArgumentSuggest(a, ts) + ArgumentSuggest(b, ts)
    ensures forall s :: ArgumentSuggest([s], ts) == if String(ts) <= s then [s] else []
  {
    StartingWithAppend(a, b, String(ts));
  }

  /** The argument suggestion function as the loop of the original. */
  method SuggestArgument(list: seq<string>, ts: TokenSet) returns (ret: seq<string>)
    ensures ret == ArgumentSuggest(list, ts)
  {
    ret := [];
    if |ts| <= 1 {
      var val := String(ts);
      if |val| > 0 {
        var i := |list|;
        while i > 0
          invariant 0 <= i <= |list|
          invariant ret == StartingWith(list[i..], val)
        {
          i := i - 1;
          assert list[i..][1..] == list[i + 1..];
          if val <= list[i] {
            ret := [list[i]] + ret;
          }
        }
        assert list[0..] == list;
      } else {
        ret := list;
      }
    }
  }

  /** What a node suggests for the tokens assigned to it. The world
      suggestion function is only ever given to the root, which is never the
      leaf of a path; there it yields nothing. */
  function NodeSuggest(n: Node, ts: TokenSet, lists: map<string, seq<string>>): seq<string>
  {
    match n.sugestor
    case WorldSugestor => []
    case CommandSugestor => CommandSuggest(n, ts)
    case ArgumentSugestor(arg) => ArgumentSuggest(ListOf(lists, arg), ts)
  }

  // ---------------------------------------------------------------------
  // Completion of a path and of a line

  /** The raw text of the assignments' tokens, concatenated. */
  function PathText(p: seq<Assignment>): string
  {
    if |p| == 0 then [] else PathText(p[..|p| - 1]) + String(p[|p| - 1].tokens)
  }

  /** A path's text is the text of all its tokens. */
  lemma {:induction false} PathTextIsString(p: seq<Assignment>)
    ensures PathText(p) == String(TokensOf(p))
    decreases |p|
  {
    if |p| > 0 {
      PathTextIsString(p[..|p| - 1]);
      StringAppend(TokensOf(p[..|p| - 1]), p[|p| - 1].tokens);
    }
  }

  /** The prefix put before each suggestion for a path's leaf. */
  function Lead(p: Path): string
  {
    PathText(p[..|p| - 1])
  }

  /** Each completion is the text before the leaf followed by one of the
      leaf node's suggestions. */
  function Prefixed(lead: string, sugs: seq<string>): (r: seq<string>)
    ensures |r| == |sugs| && forall j :: 0 <= j < |r| ==> r[j] == lead + sugs[j]
  {
    if |sugs| == 0 then [] else Prefixed(lead, sugs[..|sugs| - 1]) + [lead + sugs[|sugs| - 1]]
  }

  /** SugestAutoComplete of a path: whole-line completions, the leaf's
      suggestions each put after the text of the assignments before it. */
  function PathSuggest(p: Path, lists: map<string, seq<string>>): seq<string>
  {
    var leaf := Leaf(p);
    Prefixed(Lead(p), NodeSuggest(leaf.node, leaf.tokens, lists))
  }

  /** SugestAutoComplete of a path as the loops of the original. */
  method SuggestPath(p: Path, reg: Registry) returns (ret: seq<string>)
    ensures ret == PathSuggest(p, reg.lists)
  {
    var leaf := p[|p| - 1];
    var sugestions: seq<string>;
    match leaf.node.sugestor {
      case WorldSugestor =>
        sugestions := [];
      case CommandSugestor =>
        sugestions := CommandSuggest(leaf.node, leaf.tokens);
      case ArgumentSugestor(arg) =>
        sugestions := SuggestArgument(reg.List(arg), leaf.tokens);
    }
    ret := [];
    if |sugestions| > 0 {
      var prefix := "";
      var i := 0;
      while i < |p| - 1
        invariant 0 <= i <= |p| - 1
        invariant prefix == PathText(p[..i])
      {
        assert p[..i + 1][..i] == p[..i];
        prefix := prefix + String(p[i].tokens);
        i := i + 1;
      }
      var j := 0;
      while j < |sugestions|
        invariant 0 <= j <= |sugestions|
        invariant ret == Prefixed(prefix, sugestions[..j])
      {
        assert sugestions[..j + 1][..j] == sugestions[..j];
        ret := ret + [prefix + sugestions[j]];
        j := j + 1;
      }
      assert sugestions[..j] == sugestions;
    }
  }

  /** worldSugestorFn: the completions of every path generated for the
      tokens, in order. */
  function WorldSuggest(root: Node, ts: TokenSet, lists: map<string, seq<string>>): seq<string>
  {
    SuggestAll(GeneratePaths(root, ts), lists)
  }

  function SuggestAll(paths: seq<Path>, lists: map<string, seq<string>>): seq<string>
  {
    if |paths| == 0 then [] else SuggestAll(paths[..|paths| - 1], lists) + PathSuggest(paths[|paths| - 1], lists)
  }

  /** worldSugestorFn as the loop of the original. */
  method SuggestWorld(root: Node, ts: TokenSet, reg: Registry) returns (res: seq<string>)
    ensures res == WorldSuggest(root, ts, reg.lists)
  {
    var paths := GenerateCommandAssignPaths(root, ts);
    res := [];
    var i := 0;
    while i < |paths|
      invariant 0 <= i <= |paths|
      invariant res == SuggestAll(paths[..i], reg.lists)
    {
      SuggestAllStep(paths, i, reg.lists);
      var sac := SuggestPath(paths[i], reg);
      res := res + sac;
      i := i + 1;
    }
    assert paths[..i] == paths;
  }

  lemma SuggestAllStep(paths: seq<Path>, i: nat, lists: map<string, seq<string>>)
    requires i < |paths|
    ensures SuggestAll(paths[..i + 1], lists) == SuggestAll(paths[..i], lists) + PathSuggest(paths[i], lists)
  {
    assert paths[..i + 1][..i] == paths[..i];
  }

  // ---------------------------------------------------------------------
  // What a completion is

  /** For a path that covers the tokens, the lead of every completion, the
      leaf's text and the leaf's overflow make up the whole line: a
      completion keeps the line up to the leaf and replaces the leaf's text
      by a suggestion. */
  lemma PathCompletion(p: Path, ts: TokenSet, lists: map<string, seq<string>>)
    requires Covers(p, ts)
    ensures Lead(p) + String(Leaf(p).tokens) + String(Leaf(p).overflow) == String(ts)
    ensures forall c :: c in PathSuggest(p, lists) ==> Lead(p) <= c
  {
    CoversConcat(p, ts);
    var q := p[..|p| - 1];
    PathTextIsString(q);
    assert TokensOf(p) == TokensOf(q) + Leaf(p).tokens;
    StringAppend3(TokensOf(q), Leaf(p).tokens, Leaf(p).overflow);
  }

  /** Every completion of a line starts with a prefix of the line that ends
      where the text of the completed node begins. */
  lemma LineCompletion(root: Node, line: string, lists: map<string, seq<string>>, i: nat)
    requires i < |GeneratePaths(root, Lex(line))|
    ensures var p := GeneratePaths(root, Lex(line))[i];
      && Lead(p) + String(Leaf(p).tokens) + String(Leaf(p).overflow) == line
      && forall c :: c in PathSuggest(p, lists) ==> Lead(p) <= c
  {
    var p := GeneratePaths(root, Lex(line))[i];
    GeneratedPaths(root, Lex(line));
    assert p in GeneratePaths(root, Lex(line));
    PathCompletion(p, Lex(line), lists);
    LexRoundTrip(line);
  }

  /** The completions of a line gather those of each generated path. */
  lemma {:induction false} SuggestAllMembers(paths: seq<Path>, lists: map<string, seq<string>>, c: string)
    requires c in SuggestAll(paths, lists)
    ensures exists i :: 0 <= i < |paths| && c in PathSuggest(paths[i], lists)
    decreases |paths|
  {
    var init := paths[..|paths| - 1];
    if c in SuggestAll(init, lists) {
      SuggestAllMembers(init, lists, c);
      var i :| 0 <= i < |init| && c in PathSuggest(init[i], lists);
      assert paths[i] == init[i];
    } else {
      assert c in PathSuggest(paths[|paths| - 1], lists);
    }
  }
}

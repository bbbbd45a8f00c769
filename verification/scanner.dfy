/** The tokenizer of line_parser.go: the accept functions with their captured
    state, the scanner object and its state loop, and `Lex`, the token
    sequence the scanner produces for a line. */
module Scanner {
  import opened Tokens

  /** The state of a simple accept function. In the original each is a
      closure; the ones with captured mutable state (the counter of
      accepTimes) carry that state here as a field. */
  datatype Basic =
    | IsSpaceFn                       // unicode.IsSpace
    | AcceptTimes(n: int)             // accepTimes: accepts n runes
    | UntilRune(stop: seq<char>)      // untilRuneAcceptFn: accepts until a stop rune
    | Invert(inner: Basic)            // invertAcceptFn

  /** chainAcceptFn: the accept functions still to run, and the counter
      `methLeft` that the original exposes through a pointer. */
  datatype Chain = Chain(fns: seq<Basic>, methLeft: int)

  /** An accept function as given to acceptWhile: a simple one, a chain, or a
      chain wrapped by buildEscapeSafeAcceptFn with its `skipOne` flag. */
  datatype Acceptor =
    | Simple(b: Basic)
    | Chained(c: Chain)
    | EscapeSafe(skipOne: bool, inner: Acceptor)

  /** A simple accept function applied to one rune: the verdict and the new
      captured state. */
  function BasicStep(b: Basic, r: char): (res: (bool, Basic))
    ensures Stateless(b) ==> res.1 == b
    ensures b.IsSpaceFn? ==> (res.0 <==> IsSpace(r))
    ensures b.AcceptTimes? ==> (res.0 <==> b.n >= 1) && res.1 == AcceptTimes(b.n - 1)
    ensures b.UntilRune? ==> (res.0 <==> r !in b.stop)
  {
    match b
    case IsSpaceFn => (IsSpace(r), b)
    case AcceptTimes(n) => (n - 1 >= 0, AcceptTimes(n - 1))
    case UntilRune(stop) => (r !in stop, b)
    case Invert(inner) =>
      var (ok, inner') := BasicStep(inner, r);
      (!ok, Invert(inner'))
  }

  /** invertRuneAcceptor accepts exactly the runes its inner function
      refuses, and passes each rune on to it. */
  lemma InvertStep(b: Basic, r: char)
    requires b.Invert?
    ensures BasicStep(b, r).0 <==> !BasicStep(b.inner, r).0
    ensures BasicStep(b, r).1 == Invert(BasicStep(b.inner, r).1)
  {
  }

  /** A simple accept function without captured state: only accepTimes
      counts, so only it changes from one rune to the next. */
  predicate Stateless(b: Basic) {
    match b
    case AcceptTimes(_) => false
    case Invert(inner) => Stateless(inner)
    case _ => true
  }

  /** accepTimes(n) accepts exactly the first n runes offered to it. */
  lemma {:induction false} AcceptTimesCount(n: int, s: string, k: nat)
    requires k <= |s|
    ensures AcceptFrom(Simple(AcceptTimes(n)), s, k).0 == if n <= 0 then 0 else Min(n, |s| - k)
    decreases |s| - k
  {
    if k < |s| && n >= 1 {
      AcceptTimesCount(n - 1, s, k + 1);
    }
  }

  function Min(a: int, b: int): int {
    if a <= b then a else b
  }

  /** One call of the chained accept function: the first function runs until it
      rejects, then it is dropped and the next one is tried; when none is left
      the chain rejects. `methLeft` counts the functions after the one that
      accepted, and is 0 after a rejection. */
  function ChainStep(fns: seq<Basic>, r: char): (res: (bool, Chain))
    ensures res.0 ==> 1 <= |res.1.fns| <= |fns| && res.1.methLeft == |res.1.fns| - 1
    ensures res.0 ==> res.1.fns[1..] == fns[|fns| - |res.1.fns| + 1..]
    ensures !res.0 ==> res.1 == Chain([], 0)
    ensures !res.0 ==> forall i :: 0 <= i < |fns| ==> !BasicStep(fns[i], r).0
    ensures res.0 ==> forall i :: 0 <= i < |fns| - |res.1.fns| ==> !BasicStep(fns[i], r).0
    ensures res.0 ==> BasicStep(fns[|fns| - |res.1.fns|], r) == (true, res.1.fns[0])
  {
    if |fns| == 0 then (false, Chain([], 0))
    else
      var (ok, f') := BasicStep(fns[0], r);
      if ok then (true, Chain([f'] + fns[1..], |fns| - 1))
      else ChainStep(fns[1..], r)
  }

  /** An accept function applied to one rune. The escape wrapper accepts a
      backslash and the rune after it without consulting the function it
      wraps. */
  function Step(a: Acceptor, r: char): (res: (bool, Acceptor))
    ensures a.EscapeSafe? && (a.skipOne || r == '\\') ==> res.0
    ensures a.EscapeSafe? ==> res.1.EscapeSafe? && res.1.skipOne == (!a.skipOne && r == '\\')
    ensures a.EscapeSafe? && (a.skipOne || r == '\\') ==> res.1.inner == a.inner
  {
    match a
    case Simple(b) =>
      var (ok, b') := BasicStep(b, r);
      (ok, Simple(b'))
    case Chained(c) =>
      ChainResult(ChainStep(c.fns, r))
    case EscapeSafe(skip, inner) =>
      if skip then (true, EscapeSafe(false, inner))
      else if r == '\\' then (true, EscapeSafe(true, inner))
      else
        var (ok, inner') := Step(inner, r);
        (ok, EscapeSafe(false, inner'))
  }

  /** escapeSafeAcceptFn hands every rune that is neither escaped nor a
      backslash to the inner function, and accepts it exactly when that
      does. */
  lemma EscapeSafeStep(a: Acceptor, r: char)
    requires a.EscapeSafe? && !a.skipOne && r != '\\'
    ensures Step(a, r).0 == Step(a.inner, r).0
    ensures Step(a, r).1 == EscapeSafe(false, Step(a.inner, r).1)
  {
  }

  function ChainResult(res: (bool, Chain)): (bool, Acceptor)
  {
    (res.0, Chained(res.1))
  }

  /** The chain counter seen through any wrapper; 0 for a simple function. */
  function MethLeft(a: Acceptor): int
  {
    match a
    case Simple(_) => 0
    case Chained(c) => c.methLeft
    case EscapeSafe(_, inner) => MethLeft(inner)
  }

  /** What acceptWhile does from index k of s: the number of runes accepted
      before the first rejected rune or the end of input, and the accept
      function's state afterwards (the rejected rune was offered to it too). */
  function AcceptFrom(a: Acceptor, s: string, k: nat): (res: (nat, Acceptor))
    requires k <= |s|
    ensures k + res.0 <= |s|
    decreases |s| - k
  {
    if k == |s| then (0, a)
    else
      var (ok, a') := Step(a, s[k]);
      if !ok then (0, a')
      else
        var (n, a'') := AcceptFrom(a', s, k + 1);
        (n + 1, a'')
  }

  /** AcceptFrom at a position before the end: the rune there is offered
      to the accept function, and the run goes on only if it accepts. */
  lemma AcceptFromStep(a: Acceptor, s: string, k: nat)
    requires k < |s|
    ensures var (ok, a') := Step(a, s[k]);
      AcceptFrom(a, s, k) == if ok then (AcceptFrom(a', s, k + 1).0 + 1, AcceptFrom(a', s, k + 1).1) else (0, a')
  {
  }

  // ---------------------------------------------------------------------
  // A direct description of what the accept functions accept

  /** Position k of s is escaped within a token that starts at b: the rune
      before it is a backslash that is not itself escaped. */
  predicate Escaped(s: string, b: nat, k: nat)
    requires b <= k <= |s|
    decreases k - b
  {
    k > b && s[k - 1] == '\\' && !Escaped(s, b, k - 1)
  }

  /** The runes that end a scan when they are not escaped. */
  datatype Stop = AtSpace | AtQuote(q: char) | AtNonBackslash

  predicate Stops(st: Stop, c: char) {
    match st
    case AtSpace => IsSpace(c)
    case AtQuote(q) => c == q
    case AtNonBackslash => c != '\\'
  }

  /** The first position at or after k holding an unescaped stop rune, or
      the end of s. */
  function FirstUnescaped(s: string, b: nat, k: nat, st: Stop): (e: nat)
    requires b <= k <= |s|
    ensures k <= e <= |s|
    ensures e < |s| ==> Stops(st, s[e]) && !Escaped(s, b, e)
    ensures forall i :: k <= i < e ==> !Stops(st, s[i]) || Escaped(s, b, i)
    decreases |s| - k
  {
    if k == |s| || (Stops(st, s[k]) && !Escaped(s, b, k)) then k
    else FirstUnescaped(s, b, k + 1, st)
  }

  const PlainChain: Chain := Chain([Invert(IsSpaceFn)], 0)

  function QuotedChain(q: char): Chain {
    Chain([AcceptTimes(1), UntilRune([q]), AcceptTimes(1)], 0)
  }

  /** A plain word ends at the first unescaped whitespace, or at the end of
      input; its chain counter is then 0. */
  lemma PlainChainStep(r: char)
    ensures ChainStep(PlainChain.fns, r) == if IsSpace(r) then (false, Chain([], 0)) else (true, PlainChain)
  {
    assert BasicStep(Invert(IsSpaceFn), r) == (!IsSpace(r), Invert(IsSpaceFn));
    assert PlainChain.fns[1..] == [];
    assert [Invert(IsSpaceFn)] + PlainChain.fns[1..] == PlainChain.fns;
  }

  /** A plain word ends at the first unescaped whitespace, or at the end of
      input; its chain counter is then 0. */
  lemma {:induction false} PlainRun(s: string, b: nat, k: nat)
    requires b <= k <= |s|
    ensures var res := AcceptFrom(EscapeSafe(Escaped(s, b, k), Chained(PlainChain)), s, k);
      k + res.0 == FirstUnescaped(s, b, k, AtSpace) && MethLeft(res.1) == 0
    decreases |s| - k
  {
    if k < |s| {
      var a := EscapeSafe(Escaped(s, b, k), Chained(PlainChain));
      if Escaped(s, b, k) || s[k] == '\\' {
        assert Escaped(s, b, k + 1) == (!Escaped(s, b, k) && s[k] == '\\');
        PlainRun(s, b, k + 1);
      } else {
        PlainChainStep(s[k]);
        if IsSpace(s[k]) {
          assert Step(a, s[k]) == (false, EscapeSafe(false, Chained(Chain([], 0))));
        } else {
          assert Step(a, s[k]) == (true, EscapeSafe(false, Chained(PlainChain)));
          assert !Escaped(s, b, k + 1);
          PlainRun(s, b, k + 1);
        }
      }
    }
  }

  /** After the closing quote, the escape wrapper still accepts backslash
      pairs; the first other unescaped rune ends the token. */
  lemma {:induction false} TrailRun(s: string, b: nat, k: nat)
    requires b <= k <= |s|
    ensures var res := AcceptFrom(EscapeSafe(Escaped(s, b, k), Chained(Chain([AcceptTimes(0)], 0))), s, k);
      k + res.0 == FirstUnescaped(s, b, k, AtNonBackslash) && MethLeft(res.1) == 0
    decreases |s| - k
  {
    if k < |s| {
      if Escaped(s, b, k) || s[k] == '\\' {
        assert Escaped(s, b, k + 1) == (!Escaped(s, b, k) && s[k] == '\\');
        TrailRun(s, b, k + 1);
      } else {
        assert BasicStep(AcceptTimes(0), s[k]).0 == false;
        assert [AcceptTimes(0)][1..] == [];
        assert ChainStep([AcceptTimes(0)], s[k]) == (false, Chain([], 0));
        var a := EscapeSafe(false, Chained(Chain([AcceptTimes(0)], 0)));
        assert Step(a, s[k]) == (false, EscapeSafe(false, Chained(Chain([], 0))));
      }
    }
  }

  /** The chain states met inside the quotes. */
  predicate BodyChain(c: Chain, q: char) {
    || c == Chain([AcceptTimes(0), UntilRune([q]), AcceptTimes(1)], 2)
    || c == Chain([UntilRune([q]), AcceptTimes(1)], 1)
  }

  lemma BodyChainStep(c: Chain, q: char, r: char)
    requires BodyChain(c, q)
    ensures r != q ==> ChainStep(c.fns, r) == (true, Chain([UntilRune([q]), AcceptTimes(1)], 1))
    ensures r == q ==> ChainStep(c.fns, r) == (true, Chain([AcceptTimes(0)], 0))
  {
    var tail := [UntilRune([q]), AcceptTimes(1)];
    assert [AcceptTimes(0), UntilRune([q]), AcceptTimes(1)][1..] == tail;
    assert BasicStep(AcceptTimes(0), r).0 == false;
    assert ChainStep(c.fns, r) == ChainStep(tail, r);
    assert BasicStep(UntilRune([q]), r) == (r !in [q], UntilRune([q]));
    assert tail[1..] == [AcceptTimes(1)];
    if r != q {
      assert r !in [q];
      assert [UntilRune([q])] + tail[1..] == tail;
    } else {
      assert r in [q];
      assert ChainStep(tail, r) == ChainStep([AcceptTimes(1)], r);
      assert BasicStep(AcceptTimes(1), r) == (true, AcceptTimes(0));
      assert [AcceptTimes(1)][1..] == [];
      assert [AcceptTimes(0)] + [AcceptTimes(1)][1..] == [AcceptTimes(0)];
    }
  }

  /** The input position where a quoted token whose body is scanned from k
      ends: after the backslash pairs that follow the first unescaped closing
      quote, or at the end of input when there is no such quote. */
  function QuotedEnd(s: string, b: nat, q: char, k: nat): nat
    requires b <= k <= |s|
  {
    var close := FirstUnescaped(s, b, k, AtQuote(q));
    if close == |s| then |s| else FirstUnescaped(s, b, close + 1, AtNonBackslash)
  }

  lemma AcceptFromAccepted(a: Acceptor, s: string, k: nat)
    requires k < |s| && Step(a, s[k]).0
    ensures AcceptFrom(a, s, k) == (AcceptFrom(Step(a, s[k]).1, s, k + 1).0 + 1, AcceptFrom(Step(a, s[k]).1, s, k + 1).1)
  {
  }

  /** Inside the quotes: the token runs to QuotedEnd; the chain counter is
      positive exactly when no closing quote was found. */
  lemma {:induction false} BodyRun(s: string, b: nat, q: char, k: nat, c: Chain)
    requires b < k <= |s| && q != '\\' && BodyChain(c, q)
    ensures var res := AcceptFrom(EscapeSafe(Escaped(s, b, k), Chained(c)), s, k);
      k + res.0 == QuotedEnd(s, b, q, k) &&
      (MethLeft(res.1) > 0 <==> FirstUnescaped(s, b, k, AtQuote(q)) == |s|)
    decreases |s| - k
  {
    if k < |s| {
      if Escaped(s, b, k) || s[k] == '\\' {
        BodyRunEscape(s, b, q, k, c);
      } else if s[k] != q {
        BodyRunPlain(s, b, q, k, c);
      } else {
        BodyRunClose(s, b, q, k, c);
      }
    }
  }

  lemma {:induction false} BodyRunEscape(s: string, b: nat, q: char, k: nat, c: Chain)
    requires b < k < |s| && q != '\\' && BodyChain(c, q)
    requires Escaped(s, b, k) || s[k] == '\\'
    ensures var res := AcceptFrom(EscapeSafe(Escaped(s, b, k), Chained(c)), s, k);
      k + res.0 == QuotedEnd(s, b, q, k) &&
      (MethLeft(res.1) > 0 <==> FirstUnescaped(s, b, k, AtQuote(q)) == |s|)
    decreases |s| - k, 0
  {
    var a := EscapeSafe(Escaped(s, b, k), Chained(c));
    var a' := EscapeSafe(Escaped(s, b, k + 1), Chained(c));
    assert Step(a, s[k]) == (true, a');
    AcceptFromAccepted(a, s, k);
    assert FirstUnescaped(s, b, k, AtQuote(q)) == FirstUnescaped(s, b, k + 1, AtQuote(q));
    BodyRun(s, b, q, k + 1, c);
  }

  lemma {:induction false} BodyRunPlain(s: string, b: nat, q: char, k: nat, c: Chain)
    requires b < k < |s| && q != '\\' && BodyChain(c, q)
    requires !Escaped(s, b, k) && s[k] != '\\' && s[k] != q
    ensures var res := AcceptFrom(EscapeSafe(Escaped(s, b, k), Chained(c)), s, k);
      k + res.0 == QuotedEnd(s, b, q, k) &&
      (MethLeft(res.1) > 0 <==> FirstUnescaped(s, b, k, AtQuote(q)) == |s|)
    decreases |s| - k, 0
  {
    BodyChainStep(c, q, s[k]);
    var a := EscapeSafe(false, Chained(c));
    var c' := Chain([UntilRune([q]), AcceptTimes(1)], 1);
    assert !Escaped(s, b, k + 1);
    assert Step(a, s[k]) == (true, EscapeSafe(false, Chained(c')));
    AcceptFromAccepted(a, s, k);
    assert FirstUnescaped(s, b, k, AtQuote(q)) == FirstUnescaped(s, b, k + 1, AtQuote(q));
    BodyRun(s, b, q, k + 1, c');
  }

  lemma {:induction false} BodyRunClose(s: string, b: nat, q: char, k: nat, c: Chain)
    requires b < k < |s| && q != '\\' && BodyChain(c, q)
    requires !Escaped(s, b, k) && s[k] == q
    ensures var res := AcceptFrom(EscapeSafe(Escaped(s, b, k), Chained(c)), s, k);
      k + res.0 == QuotedEnd(s, b, q, k) &&
      (MethLeft(res.1) > 0 <==> FirstUnescaped(s, b, k, AtQuote(q)) == |s|)
    decreases |s| - k, 0
  {
    BodyChainStep(c, q, s[k]);
    var a := EscapeSafe(false, Chained(c));
    var t := EscapeSafe(false, Chained(Chain([AcceptTimes(0)], 0)));
    assert !Escaped(s, b, k + 1);
    assert Step(a, s[k]) == (true, t);
    AcceptFromAccepted(a, s, k);
    assert FirstUnescaped(s, b, k, AtQuote(q)) == k;
    TrailRun(s, b, k + 1);
  }

  /** The end of the whitespace run that starts at i. */
  function SpaceEnd(s: string, i: nat): (e: nat)
    requires i <= |s|
    ensures i <= e <= |s|
    ensures forall m :: i <= m < e ==> IsSpace(s[m])
    ensures e < |s| ==> !IsSpace(s[e])
    decreases |s| - i
  {
    if i < |s| && IsSpace(s[i]) then SpaceEnd(s, i + 1) else i
  }

  /** acceptWhile(unicode.IsSpace) accepts exactly the run of whitespace. */
  lemma {:induction false} SpaceRun(s: string, i: nat)
    requires i <= |s|
    ensures i + AcceptFrom(Simple(IsSpaceFn), s, i).0 == SpaceEnd(s, i)
    decreases |s| - i
  {
    if i < |s| && IsSpace(s[i]) {
      assert Step(Simple(IsSpaceFn), s[i]) == (true, Simple(IsSpaceFn));
      SpaceRun(s, i + 1);
    }
  }

  // ---------------------------------------------------------------------
  // The scanner's states

  /** A state function of the scanner: scanStart, a generic type scanner
      (the kind of token it emits and its accept function), or nil. */
  datatype State = StartState | TypeState(typ: TokenType, acc: Acceptor) | Stopped

  /** makeGenericTypeScanner: a state that scans one token of kind typ with the
      chain of the given accept functions, escape-safe when asked to. */
  function MakeGenericTypeScanner(typ: TokenType, backslashSafe: bool, afs: seq<Basic>): (st: State)
    ensures st.TypeState? && st.typ == typ && MethLeft(st.acc) == 0
  {
    var chain := Chained(Chain(afs, 0));
    TypeState(typ, if backslashSafe then EscapeSafe(false, chain) else chain)
  }

  /** The state scanStart moves to when the next rune c is not whitespace. */
  function WordState(c: char): (st: State)
    ensures st.TypeState? && st.typ in NoWhitespace
    ensures IsQuoted(st.typ) <==> c == '"' || c == '\''
    ensures IsQuoted(st.typ) ==> c == QuoteOf(st.typ)
  {
    if c == '"' then
      MakeGenericTypeScanner(TokenDQuoted, true, [AcceptTimes(1), UntilRune(['"']), AcceptTimes(1)])
    else if c == '\'' then
      MakeGenericTypeScanner(TokenSQuoted, true, [AcceptTimes(1), UntilRune(['\'']), AcceptTimes(1)])
    else
      MakeGenericTypeScanner(TokenString, true, [Invert(IsSpaceFn)])
  }

  predicate IsQuote(c: char) {
    c == '"' || c == '\''
  }

  /** Where the token that starts at j ends, described without the accept
      functions: a plain word at the first unescaped whitespace; a quoted
      token after its first unescaped closing quote and the backslash pairs
      that follow it, or at the end of input. */
  function WordEnd(s: string, j: nat): nat
    requires j < |s|
  {
    if IsQuote(s[j]) then QuotedEnd(s, j, s[j], j + 1) else FirstUnescaped(s, j, j, AtSpace)
  }

  /** A quoted token that starts at j has no unescaped closing quote. */
  predicate WordIncomplete(s: string, j: nat)
    requires j < |s|
  {
    IsQuote(s[j]) && FirstUnescaped(s, j, j + 1, AtQuote(s[j])) == |s|
  }

  /** The accept functions that scanStart sets up scan exactly to WordEnd,
      and leave a positive chain counter exactly when a quoted token lacks its
      closing quote. */
  lemma ScanWord(s: string, j: nat)
    requires j < |s| && !IsSpace(s[j])
    ensures var res := AcceptFrom(WordState(s[j]).acc, s, j);
      && j + res.0 == WordEnd(s, j)
      && res.0 >= 1
      && (IsQuote(s[j]) && !WordIncomplete(s, j) ==> res.0 >= 2)
      && (MethLeft(res.1) > 0 <==> WordIncomplete(s, j))
  {
    var a := WordState(s[j]).acc;
    if IsQuote(s[j]) {
      var q := s[j];
      var c := Chain([AcceptTimes(0), UntilRune([q]), AcceptTimes(1)], 2);
      assert a == EscapeSafe(false, Chained(QuotedChain(q)));
      assert BasicStep(AcceptTimes(1), q) == (true, AcceptTimes(0));
      assert [AcceptTimes(0)] + QuotedChain(q).fns[1..] == c.fns;
      assert Step(a, q) == (true, EscapeSafe(false, Chained(c)));
      AcceptFromAccepted(a, s, j);
      assert !Escaped(s, j, j + 1);
      BodyRun(s, j, q, j + 1, c);
    } else {
      assert a == EscapeSafe(Escaped(s, j, j), Chained(PlainChain));
      PlainRun(s, j, j);
      assert FirstUnescaped(s, j, j, AtSpace) == FirstUnescaped(s, j, j + 1, AtSpace);
    }
  }

  // ---------------------------------------------------------------------
  // The token sequence of a line

  /** The bounds on WordEnd that the token invariant needs. */
  lemma WordBounds(s: string, j: nat)
    requires j < |s| && !IsSpace(s[j])
    ensures j < WordEnd(s, j) <= |s|
    ensures IsQuote(s[j]) && !WordIncomplete(s, j) ==> WordEnd(s, j) >= j + 2
    ensures WordIncomplete(s, j) ==> WordEnd(s, j) == |s|
  {
    ScanWord(s, j);
  }

  /** The tokens the scanner emits from the start state at position i: the
      whitespace run, then an end-of-input token carrying it if the line ends
      there, or else a whitespace token (when the run is not empty) and the
      next word. */
  /** The whitespace token for the blanks s[i..j], none when there are none. */
  function Blanks(s: string, i: nat, j: nat): (r: TokenSet)
    requires i <= j <= |s|
    ensures |r| <= 1 && (|r| == 1 <==> i < j)
    ensures forall m :: 0 <= m < |r| ==> r[m] == Token(TokenWhitespace, s[i..j], false)
  {
    if i < j then [Token(TokenWhitespace, s[i..j], false)] else []
  }

  function LexFrom(s: string, i: nat): (r: TokenSet)
    requires i <= |s|
    ensures |r| >= 1
    decreases |s| - i, 1
  {
    var j := SpaceEnd(s, i);
    if j == |s| then [Token(TokenEOF, s[i..j], false)]
    else Blanks(s, i, j) + LexWordFrom(s, j)
  }

  /** The tokens the scanner emits from a word that starts at j: the word
      runs to WordEnd and is incomplete when it is an unterminated quoted
      token; scanning resumes in the start state after it. */
  function LexWordFrom(s: string, j: nat): (r: TokenSet)
    requires j < |s| && !IsSpace(s[j])
    ensures |r| >= 1 && r[0].kind in NoWhitespace
    decreases |s| - j, 0
  {
    WordBounds(s, j);
    var k := WordEnd(s, j);
    var t := Token(WordState(s[j]).typ, s[j..k], WordIncomplete(s, j));
    if k == |s| then [t] else [t] + LexFrom(s, k)
  }

  /** The tokens of a line (Tokenize). */
  function Lex(s: string): TokenSet
  {
    LexFrom(s, 0)
  }

  /** Concatenating the tokens gives back the line: the scanner loses and
      invents no text. */
  lemma LexRoundTrip(s: string)
    ensures String(Lex(s)) == s
  {
    LexFromText(s, 0);
  }

  lemma {:induction false} LexFromText(s: string, i: nat)
    requires i <= |s|
    ensures String(LexFrom(s, i)) == s[i..]
    decreases |s| - i, 1
  {
    var j := SpaceEnd(s, i);
    if j < |s| {
      LexWordText(s, j);
      var ws := Blanks(s, i, j);
      assert LexFrom(s, i) == ws + LexWordFrom(s, j);
      StringAppend(ws, LexWordFrom(s, j));
      assert String(ws) == s[i..j];
      assert s[i..j] + s[j..] == s[i..];
    }
  }

  lemma {:induction false} LexWordText(s: string, j: nat)
    requires j < |s| && !IsSpace(s[j])
    ensures String(LexWordFrom(s, j)) == s[j..]
    decreases |s| - j, 0
  {
    WordBounds(s, j);
    var k := WordEnd(s, j);
    LexWordStep(s, j);
    var t := LexWordFrom(s, j)[0];
    assert t.val == s[j..k];
    StringOne(t);
    if k < |s| {
      LexFromText(s, k);
      StringAppend([t], LexFrom(s, k));
      assert s[j..k] + s[k..] == s[j..];
    }
  }

  /** Every tokenized line is well formed. */
  lemma LexWellFormed(s: string)
    ensures WellFormed(Lex(s))
  {
    LexFromWellFormed(s, 0);
  }

  lemma {:induction false} LexFromWellFormed(s: string, i: nat)
    requires i <= |s|
    ensures WellFormed(LexFrom(s, i))
    decreases |s| - i, 1
  {
    var j := SpaceEnd(s, i);
    var v := s[i..j];
    assert forall m :: 0 <= m < |v| ==> v[m] == s[i + m];
    if j < |s| {
      LexWordWellFormed(s, j);
      var r := LexWordFrom(s, j);
      if i < j {
        var ts := [Token(TokenWhitespace, v, false)] + r;
        assert ts[1..] == r;
        assert TokenShape(ts[0]);
        assert LexFrom(s, i) == ts;
      } else {
        assert LexFrom(s, i) == r;
      }
    }
  }

  lemma {:induction false} LexWordWellFormed(s: string, j: nat)
    requires j < |s| && !IsSpace(s[j])
    ensures WellFormed(LexWordFrom(s, j))
    decreases |s| - j, 0
  {
    WordBounds(s, j);
    var k := WordEnd(s, j);
    var t := LexWordFrom(s, j)[0];
    assert t.val[0] == s[j];
    assert TokenShape(t);
    if k < |s| {
      LexFromWellFormed(s, k);
      var ts := LexWordFrom(s, j);
      assert ts[1..] == LexFrom(s, k);
    }
  }

  /** The end-of-input token carries the whitespace that ends the line; its
      text is empty only for an empty line. */
  lemma LexEmpty()
    ensures Lex("") == [Token(TokenEOF, "", false)]
  {
  }

  lemma {:induction false} LexEofText(s: string, i: nat)
    requires i < |s|
    ensures var ts := LexFrom(s, i); ts[|ts| - 1].kind == TokenEOF ==> |ts[|ts| - 1].val| > 0
    decreases |s| - i, 1
  {
    var j := SpaceEnd(s, i);
    if j < |s| {
      LexWordEofText(s, j);
      var ws := Blanks(s, i, j);
      var r := LexWordFrom(s, j);
      assert LexFrom(s, i) == ws + r;
      assert (ws + r)[|ws| + |r| - 1] == r[|r| - 1];
    } else {
      assert LexFrom(s, i) == [Token(TokenEOF, s[i..j], false)];
      assert |s[i..j]| == j - i;
    }
  }

  lemma {:induction false} LexWordEofText(s: string, j: nat)
    requires j < |s| && !IsSpace(s[j])
    ensures var ts := LexWordFrom(s, j); ts[|ts| - 1].kind == TokenEOF ==> |ts[|ts| - 1].val| > 0
    decreases |s| - j, 0
  {
    WordBounds(s, j);
    var k := WordEnd(s, j);
    if k < |s| {
      LexEofText(s, k);
      var ts := LexWordFrom(s, j);
      assert ts[|ts| - 1] == LexFrom(s, k)[|LexFrom(s, k)| - 1];
    }
  }

  /** The last token of a line: the line is the text of the tokens before
      it followed by its text. An end-of-input token holds the whitespace
      that ends the line, so a line that ends in a non-space rune has none;
      only the last token can be an unterminated quoted token, and its text
      runs from the opening quote to the end of the line. */
  lemma LexTail(s: string)
    ensures var ts := Lex(s); var last := ts[|ts| - 1];
      && String(ts[..|ts| - 1]) + last.val == s
      && (last.kind == TokenEOF ==> forall m :: 0 <= m < |last.val| ==> IsSpace(last.val[m]))
      && (last.kind == TokenEOF && |s| > 0 ==> |last.val| > 0)
      && (|s| > 0 && !IsSpace(s[|s| - 1]) ==> last.kind != TokenEOF)
      && (forall k :: 0 <= k < |ts| && ts[k].incomplete ==> k == |ts| - 1 && |last.val| > 0 && IsQuote(last.val[0]))
  {
    var ts := Lex(s);
    var last := ts[|ts| - 1];
    LexRoundTrip(s);
    LexWellFormed(s);
    WellFormedElements(ts);
    assert ts == ts[..|ts| - 1] + [last];
    StringAppend(ts[..|ts| - 1], [last]);
    assert String([last]) == last.val + String([]);
    if |s| > 0 {
      LexEofText(s, 0);
      if last.kind == TokenEOF {
        assert s[|s| - 1] == last.val[|last.val| - 1];
      }
    }
  }

  /** LexWordFrom unfolded once. */
  lemma LexWordStep(s: string, j: nat)
    requires j < |s| && !IsSpace(s[j])
    ensures var k := WordEnd(s, j);
      LexWordFrom(s, j) == if k == |s| then [LexWordFrom(s, j)[0]] else [LexWordFrom(s, j)[0]] + LexFrom(s, k)
  {
  }

  /** A state the scanner can be in at position pos: a type scanner only at
      the first rune of a word, the one scanStart chose for it. */
  ghost predicate StateOk(s: string, st: State, pos: nat) {
    pos <= |s| && (st.TypeState? ==> pos < |s| && !IsSpace(s[pos]) && st == WordState(s[pos]))
  }

  /** The tokens still to come from state st at position pos. */
  ghost function Rest(s: string, st: State, pos: nat): TokenSet
    requires StateOk(s, st, pos)
  {
    match st
    case StartState => LexFrom(s, pos)
    case TypeState(_, _) => LexWordFrom(s, pos)
    case Stopped => []
  }

  /** What scanStart emits from position i, followed by what the state it
      returns emits, is what the line has left from i. */
  lemma StartRest(s: string, i: nat)
    requires i <= |s|
    ensures var j := SpaceEnd(s, i);
      j < |s| ==> (StateOk(s, WordState(s[j]), j) &&
        LexFrom(s, i) == Blanks(s, i, j) + Rest(s, WordState(s[j]), j))
    ensures SpaceEnd(s, i) == |s| ==> LexFrom(s, i) == [Token(TokenEOF, s[i..|s|], false)]
  {
  }

  /** What scanStart does, followed by what is left to come from the state
      it returns, is what was left to come from position i. */
  lemma StartStep(s: string, i: nat, before: TokenSet, after: TokenSet, st: State)
    requires i <= |s|
    requires var j := SpaceEnd(s, i);
      && (j == |s| ==> st == Stopped && after == before + [Token(TokenEOF, s[i..j], false)])
      && (j < |s| ==>
            st == WordState(s[j]) &&
            after == before + Blanks(s, i, j))
    ensures StateOk(s, st, SpaceEnd(s, i))
    ensures after + Rest(s, st, SpaceEnd(s, i)) == before + LexFrom(s, i)
  {
    var j := SpaceEnd(s, i);
    StartRest(s, i);
    if j < |s| {
      var ws := Blanks(s, i, j);
      var r := Rest(s, st, j);
      assert LexFrom(s, i) == ws + r;
      AppendAssoc(before, ws, r);
    }
  }

  /** What the type scanner does, followed by what is left to come from the
      state it returns, is what was left to come from the word at j. */
  lemma TypeStep(s: string, j: nat, k: nat, before: TokenSet, after: TokenSet, st: State)
    requires j < |s| && !IsSpace(s[j]) && k == WordEnd(s, j) <= |s|
    requires after == before + [LexWordFrom(s, j)[0]]
    requires st == if k == |s| then Stopped else StartState
    ensures StateOk(s, st, k)
    ensures after + Rest(s, st, k) == before + LexWordFrom(s, j)
  {
    LexWordStep(s, j);
    AppendAssoc(before, [LexWordFrom(s, j)[0]], Rest(s, st, k));
  }

  lemma AppendAssoc(a: TokenSet, b: TokenSet, c: TokenSet)
    ensures (a + b) + c == a + (b + c)
  {
  }

  // ---------------------------------------------------------------------
  // The scanner object

  /** What next and peek return: a rune, or the end-of-input marker. */
  datatype Rune = Eof | Ch(c: char)

  /** The scanner: the line, the start of the token being scanned, the read
      position, and the tokens emitted so far (the channel, collected). */
  class Scanner {
    const input: string
    var start: nat
    var pos: nat
    var tokens: TokenSet

    constructor (input: string)
      ensures this.input == input && start == 0 && pos == 0 && tokens == []
    {
      this.input := input;
      start := 0;
      pos := 0;
      tokens := [];
    }

    /** Reads one rune, or reports the end of input without moving. */
    method Next() returns (r: Rune)
      requires pos <= |input|
      modifies this`pos
      ensures old(pos) < |input| ==> r == Ch(input[old(pos)]) && pos == old(pos) + 1
      ensures old(pos) == |input| ==> r == Eof && pos == old(pos)
    {
      if pos >= |input| {
        r := Eof;
      } else {
        r := Ch(input[pos]);
        pos := pos + 1;
      }
    }

    /** Looks at the next rune without consuming it. */
    method Peek() returns (r: Rune)
      requires pos <= |input|
      modifies this`pos
      ensures pos == old(pos)
      ensures r == if pos < |input| then Ch(input[pos]) else Eof
    {
      var backup := pos;
      r := Next();
      pos := backup;
    }

    /** Emits the text between start and pos as one token. */
    method Emit(kind: TokenType, incomp: bool)
      requires start <= pos <= |input|
      requires ValueInBounds(Token(kind, input[start..pos], incomp))
      modifies this`tokens, this`start
      ensures tokens == old(tokens) + [Token(kind, input[old(start)..pos], incomp)]
      ensures start == pos
    {
      tokens := tokens + [Token(kind, input[start..pos], incomp)];
      start := pos;
    }

    /** Emits the pending text, if any, as a whitespace token. */
    method Skip()
      requires start <= pos <= |input|
      modifies this`tokens, this`start
      ensures tokens == old(tokens) + if old(start) < pos then [Token(TokenWhitespace, input[old(start)..pos], false)] else []
      ensures start == pos
    {
      if start < pos {
        Emit(TokenWhitespace, false);
      }
    }

    /** Advances over the runes the accept function accepts and stops before
        the first one it rejects, or at the end of input. The accept function
        has also seen the rejected rune; its final state is returned. */
    method AcceptWhile(a: Acceptor) returns (a': Acceptor)
      requires pos <= |input|
      modifies this`pos
      ensures (pos - old(pos), a') == AcceptFrom(a, input, old(pos))
    {
      var p0 := pos;
      var backup := pos;
      var cur := a;
      var going := true;
      while going
        invariant p0 <= backup <= |input|
        invariant going ==> pos == backup
        invariant going ==> (AcceptFrom(a, input, p0) ==
          (backup - p0 + AcceptFrom(cur, input, backup).0, AcceptFrom(cur, input, backup).1))
        invariant !going ==> AcceptFrom(a, input, p0) == (backup - p0, cur)
        decreases |input| - backup, going
      {
        var r := Next();
        if r.Eof? {
          going := false;
        } else {
          AcceptFromStep(cur, input, backup);
          var res := Step(cur, r.c);
          cur := res.1;
          if res.0 {
            backup := pos;
          } else {
            going := false;
          }
        }
      }
      pos := backup;
      a' := cur;
    }

    /** scanStart: skips whitespace; at the end of input emits the end-of-input
        token and stops; otherwise emits the whitespace and switches to the
        scanner for the kind of token the next rune opens. */
    method ScanStart() returns (st: State)
      requires start == pos <= |input|
      modifies this`pos, this`start, this`tokens
      ensures start == pos == SpaceEnd(input, old(pos))
      ensures pos == |input| ==> (st == Stopped &&
        tokens == old(tokens) + [Token(TokenEOF, input[old(pos)..pos], false)])
      ensures pos < |input| ==> (st == WordState(input[pos]) &&
        tokens == old(tokens) + if old(pos) < pos then [Token(TokenWhitespace, input[old(pos)..pos], false)] else [])
    {
      SpaceRun(input, pos);
      var _ := AcceptWhile(Simple(IsSpaceFn));
      var r := Peek();
      match r
      case Eof =>
        Emit(TokenEOF, false);
        st := Stopped;
      case Ch(c) =>
        Skip();
        st := WordState(c);
    }

    /** The generic type scanner: runs its accept function, then emits one
        token of its kind, marked incomplete when the line ended while the
        chain still had functions to run; stops at the end of input and
        returns to scanStart otherwise. */
    method ScanType(typ: TokenType, acc: Acceptor) returns (st: State)
      requires start == pos < |input| && !IsSpace(input[pos])
      requires TypeState(typ, acc) == WordState(input[pos])
      modifies this`pos, this`start, this`tokens
      ensures start == pos == WordEnd(input, old(pos))
      ensures tokens == old(tokens) + [LexWordFrom(input, old(pos))[0]]
      ensures st == if pos == |input| then Stopped else StartState
    {
      WordBounds(input, pos);
      ScanWord(input, pos);
      var acc' := AcceptWhile(acc);
      var r := Peek();
      if r.Eof? {
        Emit(typ, MethLeft(acc') > 0);
        st := Stopped;
      } else {
        Emit(typ, false);
        st := StartState;
      }
    }

    /** Runs the state functions from scanStart until one returns nil. */
    method Run()
      requires start == pos == 0 && tokens == []
      modifies this`pos, this`start, this`tokens
      ensures tokens == Lex(input)
    {
      var state := StartState;
      while !state.Stopped?
        invariant start == pos
        invariant StateOk(input, state, pos) && tokens + Rest(input, state, pos) == Lex(input)
        decreases |input| - pos, if state.StartState? then 2 else if state.TypeState? then 1 else 0
      {
        match state
        case StartState =>
          ghost var p, t0 := pos, tokens;
          state := ScanStart();
          StartStep(input, p, t0, tokens, state);
        case TypeState(typ, acc) =>
          ghost var p, t0 := pos, tokens;
          state := ScanType(typ, acc);
          TypeStep(input, p, pos, t0, tokens, state);
      }
    }
  }

  /** Tokenize: the tokens of a line, as the scanner emits them. */
  method Tokenize(input: string) returns (tokens: TokenSet)
    ensures tokens == Lex(input)
  {
    var sc := new Scanner(input);
    sc.Run();
    tokens := sc.tokens;
  }
}

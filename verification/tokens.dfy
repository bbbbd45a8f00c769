/** Tokens and the read-only helpers over a token slice (line_parser.go). */
module Tokens {

  /** The kinds of token the scanner can emit. In the original these are bit
      flags so that masks can be formed; here a mask is a set of kinds. */
  datatype TokenType =
    | TokenError
    | TokenEOF
    | TokenString
    | TokenDQuoted
    | TokenSQuoted
    | TokenWhitespace

  const NoWhitespace: set<TokenType> := {TokenString, TokenDQuoted, TokenSQuoted}
  const AllWhitespace: set<TokenType> := {TokenEOF, TokenWhitespace}

  /** Go's unicode.IsSpace: the characters with the Unicode White_Space
      property. */
  predicate IsSpace(c: char) {
    || ('\t' <= c <= '\r')
    || c == ' '
    || c == '\U{0085}'
    || c == '\U{00A0}'
    || c == '\U{1680}'
    || ('\U{2000}' <= c <= '\U{200A}')
    || c == '\U{2028}'
    || c == '\U{2029}'
    || c == '\U{202F}'
    || c == '\U{205F}'
    || c == '\U{3000}'
  }

  predicate IsQuoted(k: TokenType) {
    k == TokenDQuoted || k == TokenSQuoted
  }

  /** A scanned token: its kind, its raw text (quotes included) and whether a
      quoted token was cut short by the end of the line. */
  datatype RawToken = Token(kind: TokenType, val: string, incomplete: bool)

  /** A quoted token holds its opening quote, and also its closing one when it
      is complete: exactly what ToString needs to slice without going out of
      bounds. Every token the scanner emits satisfies this. */
  predicate ValueInBounds(t: RawToken) {
    IsQuoted(t.kind) ==> |t.val| >= (if t.incomplete then 1 else 2)
  }

  type Token = t: RawToken | ValueInBounds(t) witness Token(TokenEOF, [], false)

  type TokenSet = seq<Token>

  /** The value of a token: quoted tokens lose their opening quote, and their
      closing quote when they have one; other tokens are returned as they are. */
  function ToString(t: Token): (r: string)
    ensures !IsQuoted(t.kind) ==> r == t.val
    ensures IsQuoted(t.kind) && t.incomplete ==> t.val == t.val[..1] + r
    ensures IsQuoted(t.kind) && !t.incomplete ==> t.val == t.val[..1] + r + t.val[|t.val| - 1..]
  {
    var start := if IsQuoted(t.kind) then 1 else 0;
    var end := if IsQuoted(t.kind) && !t.incomplete then |t.val| - 1 else |t.val|;
    t.val[start..end]
  }

  predicate IsWhitespace(t: Token) {
    t.kind in AllWhitespace
  }

  /** The opening quote of a quoted kind. */
  function QuoteOf(k: TokenType): char
    requires IsQuoted(k)
  {
    if k == TokenDQuoted then '"' else '\''
  }

  /** What every token the scanner emits looks like on its own: never an
      error; whitespace and end-of-input text made of whitespace only, a
      whitespace token never empty; a word starts with a non-space rune, a
      quoted one with its quote; only a quoted token can be incomplete. */
  predicate TokenShape(t: Token) {
    && t.kind != TokenError
    && (IsWhitespace(t) ==> forall m :: 0 <= m < |t.val| ==> IsSpace(t.val[m]))
    && (t.kind == TokenWhitespace ==> |t.val| > 0)
    && (t.kind in NoWhitespace ==> |t.val| > 0 && !IsSpace(t.val[0]))
    && (IsQuoted(t.kind) ==> t.val[0] == QuoteOf(t.kind))
    && (t.incomplete ==> IsQuoted(t.kind))
  }

  /** The shape of a whole tokenized line: at least one token, every token
      shaped as above, and only the last token may be the end-of-input token
      or incomplete; a whitespace token is never last and is followed by a
      word. */
  predicate WellFormed(ts: TokenSet)
    decreases |ts|
  {
    && |ts| >= 1
    && TokenShape(ts[0])
    && if |ts| == 1 then ts[0].kind != TokenWhitespace
       else
         && ts[0].kind != TokenEOF
         && !ts[0].incomplete
         && (ts[0].kind == TokenWhitespace ==> ts[1].kind in NoWhitespace)
         && WellFormed(ts[1..])
  }

  /** WellFormed read token by token. */
  lemma {:induction false} WellFormedElements(ts: TokenSet)
    requires WellFormed(ts)
    ensures forall i :: 0 <= i < |ts| ==> TokenShape(ts[i])
    ensures forall i :: 0 <= i < |ts| - 1 ==> ts[i].kind != TokenEOF && !ts[i].incomplete
    ensures forall i :: 0 <= i < |ts| && ts[i].kind == TokenWhitespace ==> i + 1 < |ts| && ts[i + 1].kind in NoWhitespace
    decreases |ts|
  {
    if |ts| > 1 {
      WellFormedElements(ts[1..]);
      forall i | 1 <= i < |ts|
        ensures ts[i] == ts[1..][i - 1]
      {
      }
    }
  }

  /** The concatenated raw text of the tokens. */
  function String(ts: TokenSet): string
  {
    if ts == [] then [] else ts[0].val + String(ts[1..])
  }

  lemma {:induction false} StringAppend(a: TokenSet, b: TokenSet)
    ensures String(a + b) == String(a) + String(b)
  {
    if a == [] {
      assert a + b == b;
    } else {
      assert (a + b)[1..] == a[1..] + b;
      StringAppend(a[1..], b);
    }
  }

  /** True when some token is neither whitespace nor end of input. */
  function HasText(ts: TokenSet): (r: bool)
    ensures r <==> exists i :: 0 <= i < |ts| && !IsWhitespace(ts[i])
  {
    if ts == [] then false
    else if !IsWhitespace(ts[0]) then true
    else
      assert forall i :: 1 <= i < |ts| ==> ts[i] == ts[1..][i - 1];
      HasText(ts[1..])
  }

  /** Number of whitespace tokens at the front. */
  function LeadingWs(ts: TokenSet): (n: nat)
    ensures n <= |ts|
    ensures forall i :: 0 <= i < n ==> IsWhitespace(ts[i])
    ensures n < |ts| ==> !IsWhitespace(ts[n])
  {
    if ts == [] || !IsWhitespace(ts[0]) then 0 else 1 + LeadingWs(ts[1..])
  }

  /** Number of whitespace tokens at the back. */
  function TrailingWs(ts: TokenSet): (n: nat)
    ensures n <= |ts|
    ensures forall i :: |ts| - n <= i < |ts| ==> IsWhitespace(ts[i])
    ensures n < |ts| ==> !IsWhitespace(ts[|ts| - n - 1])
  {
    if ts == [] || !IsWhitespace(ts[|ts| - 1]) then 0 else 1 + TrailingWs(ts[..|ts| - 1])
  }

  /** The contiguous sub-slice from the first to the last token with text;
      empty when there is none. */
  function Trimmed(ts: TokenSet): (r: TokenSet)
    ensures HasText(ts) ==>
      var s := LeadingWs(ts); var e := |ts| - TrailingWs(ts);
      s < e && r == ts[s..e]
    ensures !HasText(ts) ==> r == []
    ensures |r| > 0 ==> !IsWhitespace(r[0]) && !IsWhitespace(r[|r| - 1])
    ensures forall t :: t in r ==> t in ts
  {
    if HasText(ts) then
      var s := LeadingWs(ts);
      var e := |ts| - TrailingWs(ts);
      ts[s..e]
    else []
  }

  /** A loop that finds the first and the last token with text, as the
      original's Trimmed does, and slices between them. */
  method Trim(ts: TokenSet) returns (r: TokenSet)
    ensures r == Trimmed(ts)
  {
    var found := false;
    var start, end := 0, 0;
    var idx := 0;
    while idx < |ts|
      invariant 0 <= idx <= |ts|
      invariant !found ==> forall i :: 0 <= i < idx ==> IsWhitespace(ts[i])
      invariant found ==> start == LeadingWs(ts) && start < end <= idx && !IsWhitespace(ts[start])
      invariant found ==> !IsWhitespace(ts[end - 1])
      invariant found ==> forall i :: end <= i < idx ==> IsWhitespace(ts[i])
      invariant !found ==> start == 0 && end == 0
    {
      if !IsWhitespace(ts[idx]) {
        end := idx + 1;
        if !found {
          LeadingWsAt(ts, idx);
          found := true;
          start := idx;
        }
      }
      idx := idx + 1;
    }
    if found {
      TrailingWsAt(ts, end);
      assert HasText(ts);
    } else {
      assert !HasText(ts);
    }
    r := ts[start..end];
  }

  lemma {:induction false} LeadingWsAt(ts: TokenSet, k: nat)
    requires k < |ts| && !IsWhitespace(ts[k])
    requires forall i :: 0 <= i < k ==> IsWhitespace(ts[i])
    ensures LeadingWs(ts) == k
  {
    if k > 0 {
      LeadingWsAt(ts[1..], k - 1);
    }
  }

  lemma TrailingWsAt(ts: TokenSet, end: nat)
    requires 0 < end <= |ts|
    requires !IsWhitespace(ts[end - 1])
    requires forall i :: end <= i < |ts| ==> IsWhitespace(ts[i])
    ensures TrailingWs(ts) == |ts| - end
  {
  }

  /** The text of the line with leading and trailing whitespace tokens
      removed. */
  function Stringify(ts: TokenSet): string
  {
    String(Trimmed(ts))
  }

  /** The raw text splits into leading whitespace, the stringified value and
      trailing whitespace. */
  lemma StringifyIsInfix(ts: TokenSet)
    requires HasText(ts)
    ensures String(ts) == String(ts[..LeadingWs(ts)]) + Stringify(ts) + String(ts[|ts| - TrailingWs(ts)..])
  {
    TrimmedSplit(ts, LeadingWs(ts), |ts| - TrailingWs(ts));
  }

  lemma TrimmedSplit(ts: TokenSet, s: nat, e: nat)
    requires s <= e <= |ts| && Trimmed(ts) == ts[s..e]
    ensures String(ts) == String(ts[..s]) + Stringify(ts) + String(ts[e..])
  {
    StringSlices(ts, s, e);
  }

  lemma StringSlices(ts: TokenSet, s: nat, e: nat)
    requires s <= e <= |ts|
    ensures String(ts) == String(ts[..s]) + String(ts[s..e]) + String(ts[e..])
  {
    SliceJoin(ts, s, e);
    StringAppend3(ts[..s], ts[s..e], ts[e..]);
  }

  lemma SliceJoin(ts: TokenSet, s: nat, e: nat)
    requires s <= e <= |ts|
    ensures ts[..s] + ts[s..e] + ts[e..] == ts
  {
  }

  lemma StringOne(t: Token)
    ensures String([t]) == t.val
  {
    assert [t][1..] == [];
  }

  lemma StringAppend3(a: TokenSet, b: TokenSet, c: TokenSet)
    ensures String(a + b + c) == String(a) + String(b) + String(c)
  {
    StringAppend(a + b, c);
    StringAppend(a, b);
  }

  /** The tokens whose kind is in the mask, in their original order. */
  function Filter(ts: TokenSet, keep: set<TokenType>): (r: TokenSet)
    ensures |r| <= |ts|
    ensures forall t :: t in r ==> t in ts && t.kind in keep
    ensures forall t :: t in ts && t.kind in keep ==> t in r
  {
    if ts == [] then []
    else if ts[0].kind in keep then [ts[0]] + Filter(ts[1..], keep)
    else Filter(ts[1..], keep)
  }

  /** Filtering distributes over concatenation, so order is kept. */
  lemma {:induction false} FilterAppend(a: TokenSet, b: TokenSet, keep: set<TokenType>)
    ensures Filter(a + b, keep) == Filter(a, keep) + Filter(b, keep)
  {
    if a != [] {
      assert (a + b)[1..] == a[1..] + b;
      FilterAppend(a[1..], b, keep);
      if a[0].kind in keep {
        assert Filter(a + b, keep) == [a[0]] + Filter(a[1..] + b, keep);
        assert Filter(a, keep) == [a[0]] + Filter(a[1..], keep);
      } else {
        assert Filter(a + b, keep) == Filter(a[1..] + b, keep);
      }
    } else {
      assert a + b == b;
    }
  }
}

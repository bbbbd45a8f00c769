/** How a node Times has wrapped once repeats (arguments.go): every
    assignment it makes of itself takes between 1 and max words of its
    input. */
module Repetition {
  import opened Tokens
  import opened Grammar

  /** What is left of ts after m successive consumeArgumentTokens calls,
      each taking one word and the whitespace after it; nothing once ts runs
      out of tokens. */
  function After(ts: TokenSet, m: nat): TokenSet
    decreases m
  {
    if m == 0 || |ts| == 0 then ts else After(Consume(ts).1, m - 1)
  }

  /** repeatAcceptPerm on a node with one Times layer unfolded once: the one
      match of the base acceptor, if any, then the repetitions after it. */
  lemma RepeatAcceptUnfold(n: Node, prefix: TokenSet, rest: TokenSet, count: int)
    requires 0 < |n.repeats| && |prefix| > 0 && count > 0
    ensures var m := BaseAccept(n, rest);
      && (|m| == 0 ==> RepeatAccept(n, 0, prefix, rest, count) == [])
      && (|m| == 1 ==>
            RepeatAccept(n, 0, prefix, rest, count) ==
            [Assignment(n, prefix + m[0].tokens, m[0].overflow)] + RepeatAccept(n, 0, prefix + m[0].tokens, m[0].overflow, count - 1))
  {
    var m := BaseAccept(n, rest);
    assert AcceptLayer(n, 0, rest) == m;
    assert RepeatAccept(n, 0, prefix, rest, count) == RepeatEach(n, 0, prefix, rest, m, count);
    if |m| == 1 {
      assert m[1..] == [];
      assert RepeatEach(n, 0, prefix, rest, m[1..], count) == [];
    }
  }

  /** a is one of the repetitions of a node whose base acceptor takes one
      word at a time: it leaves what is left after the next word of rest, or
      it is a repetition from there, with count repetitions left. */
  ghost predicate Repetition(rest: TokenSet, count: nat, a: Assignment)
    decreases count
  {
    && count > 0 && |rest| > 0
    && (a.overflow == Consume(rest).1 || Repetition(Consume(rest).1, count - 1, a))
  }

  /** Every assignment repeatAcceptPerm makes for a node with one Times
      layer is such a repetition. */
  lemma {:induction false} RepeatAcceptRepetition(n: Node, prefix: TokenSet, rest: TokenSet, count: int)
    requires 0 < |n.repeats| && |prefix| > 0
    ensures forall a :: a in RepeatAccept(n, 0, prefix, rest, count) ==> a.node == n && count > 0 && Repetition(rest, count, a)
    decreases if count < 0 then 0 else count
  {
    if count > 0 {
      RepeatAcceptUnfold(n, prefix, rest, count);
      var m := BaseAccept(n, rest);
      if |m| == 1 {
        RepeatAcceptRepetition(n, prefix + m[0].tokens, m[0].overflow, count - 1);
      }
    }
  }

  /** A repetition takes between 1 and count further words. */
  lemma {:induction false} RepeatWords(rest: TokenSet, count: nat, a: Assignment) returns (m: nat)
    requires Repetition(rest, count, a)
    ensures 1 <= m <= count && a.overflow == After(rest, m)
    decreases count
  {
    var r2 := Consume(rest).1;
    if a.overflow == r2 {
      assert After(rest, 1) == After(r2, 0);
      m := 1;
    } else {
      var m' := RepeatWords(r2, count - 1, a);
      assert After(rest, m' + 1) == After(r2, m');
      m := m' + 1;
    }
  }

  /** Taking the first word and then m more is taking m + 1 words. */
  lemma AfterNext(ts: TokenSet, r2: TokenSet, m: nat)
    requires |ts| > 0 && r2 == Consume(ts).1
    ensures After(ts, m + 1) == After(r2, m)
  {
  }

  /** A repetition that starts after the first word of ts leaves what is
      left after 2 to count + 1 words of ts. */
  lemma RepetitionAfter(ts: TokenSet, r2: TokenSet, count: nat, a: Assignment) returns (m: nat)
    requires |ts| > 0 && r2 == Consume(ts).1 && Repetition(r2, count, a)
    ensures 2 <= m <= count + 1 && a.overflow == After(ts, m)
  {
    var m' := RepeatWords(r2, count, a);
    AfterNext(ts, r2, m');
    m := m' + 1;
  }

  /** A node Times has wrapped once: what its base acceptor takes, the
      children's assignments when it may be skipped, and the repetitions. */
  lemma OneLayer(n: Node, ts: TokenSet)
    requires |n.repeats| == 1
    ensures var rep := n.repeats[0];
      var one := BaseAccept(n, ts);
      Accept(n, ts) == one
        + (if rep.min < 1 then ChildrenAccept(n, 0, ts) else [])
        + (if rep.max > 1 && |one| == 1 then RepeatAccept(n, 0, one[0].tokens, one[0].overflow, GoInt(rep.max - 1)) else [])
  {
    var rep := n.repeats[0];
    var one := BaseAccept(n, ts);
    LayerUnfold(n, ts);
    assert AcceptLayer(n, 0, ts) == one;
    if rep.max > 1 {
      if |one| == 1 {
        RepeatFromOne(n, one, GoInt(rep.max - 1), ts);
      } else {
        assert RepeatFrom(n, 0, one, GoInt(rep.max - 1), ts) == [];
      }
    }
  }

  lemma LayerUnfold(n: Node, ts: TokenSet)
    requires |n.repeats| == 1
    ensures var rep := n.repeats[0];
      Accept(n, ts) == AcceptLayer(n, 0, ts)
        + (if rep.min < 1 then ChildrenAccept(n, 0, ts) else [])
        + (if rep.max > 1 then RepeatFrom(n, 0, AcceptLayer(n, 0, ts), GoInt(rep.max - 1), ts) else [])
  {
  }

  lemma RepeatFromOne(n: Node, one: seq<Assignment>, count: int, ts: TokenSet)
    requires |n.repeats| == 1 && |one| == 1 && SplitsInput(one, ts)
    ensures RepeatFrom(n, 0, one, count, ts) == RepeatAccept(n, 0, one[0].tokens, one[0].overflow, count)
  {
    assert RepeatFrom(n, 0, one[1..], count, ts) == [];
  }

  /** A node Times has wrapped once either passes on a child's assignment,
      when it may be skipped, or assigns itself the first m words of its
      input for some m from 1 to max, leaving what is left after them. There
      is only one word when max is at most 1, and also when max is above
      2^63, where the conversion of max - 1 to a Go int comes out
      negative. */
  lemma TimesWords(n: Node, ts: TokenSet, a: Assignment)
    requires |n.repeats| == 1 && a in Accept(n, ts)
    ensures var rep := n.repeats[0];
      || (rep.min < 1 && a in ChildrenAccept(n, 0, ts))
      || (&& a.node == n
          && exists m: nat :: 1 <= m && (m == 1 || (m <= rep.max && rep.max <= 0x8000_0000_0000_0000)) && a.overflow == After(ts, m))
    ensures var rep := n.repeats[0];
      rep.max <= 1 && !(rep.min < 1 && a in ChildrenAccept(n, 0, ts)) ==> a.node == n && a.tokens == Consume(ts).0
  {
    var rep := n.repeats[0];
    var one := BaseAccept(n, ts);
    TimesCases(n, ts, a);
    if a in one {
      AfterNext(ts, Consume(ts).1, 0);
    } else if rep.min < 1 && a in ChildrenAccept(n, 0, ts) {
    } else {
      var m := TimesRepeatWords(n, ts, a);
      assert m <= rep.max && rep.max <= 0x8000_0000_0000_0000;
    }
  }

  /** What a node Times has wrapped once may assign: the match of its base
      acceptor, a child's assignment when it may be skipped, or a
      repetition. */
  lemma TimesCases(n: Node, ts: TokenSet, a: Assignment)
    requires |n.repeats| == 1 && a in Accept(n, ts)
    ensures var rep := n.repeats[0];
      var one := BaseAccept(n, ts);
      || a in one
      || (rep.min < 1 && a in ChildrenAccept(n, 0, ts))
      || (rep.max > 1 && |one| == 1 && a in RepeatAccept(n, 0, one[0].tokens, one[0].overflow, GoInt(rep.max - 1)))
  {
    OneLayer(n, ts);
  }

  lemma TimesRepeatWords(n: Node, ts: TokenSet, a: Assignment) returns (m: nat)
    requires |n.repeats| == 1 && n.repeats[0].max > 1
    requires var one := BaseAccept(n, ts);
      |one| == 1 && a in RepeatAccept(n, 0, one[0].tokens, one[0].overflow, GoInt(n.repeats[0].max - 1))
    ensures a.node == n && 2 <= m <= n.repeats[0].max <= 0x8000_0000_0000_0000 && a.overflow == After(ts, m)
  {
    var one := BaseAccept(n, ts);
    var count := GoInt(n.repeats[0].max - 1);
    RepeatAcceptRepetition(n, one[0].tokens, one[0].overflow, count);
    m := RepetitionAfter(ts, one[0].overflow, count, a);
  }
}

// A lowered function as its own declaration's outline, filled with what the rest of the
// program answers: when two programs give one outline the same text.

module Lowerings {
  import opened Decimals
  import opened QueryModel
  import opened FrontEnd

  // ---- One function's body among all ----

  function BodyFor(bodies: seq<Body>, symbol: nat): Option<Body> {
    if bodies == [] then None
    else
      var last := bodies[|bodies| - 1];
      if last.symbol == symbol then Some(last) else BodyFor(bodies[..|bodies| - 1], symbol)
  }

  predicate OneBodyEach(bodies: seq<Body>) {
    forall i, j :: 0 <= i < j < |bodies| ==> bodies[i].symbol != bodies[j].symbol
  }

  lemma {:induction false} NoBodyFor(bodies: seq<Body>, symbol: nat)
    requires forall i :: 0 <= i < |bodies| ==> bodies[i].symbol != symbol
    ensures BodyFor(bodies, symbol) == None
  {
    if bodies != [] { NoBodyFor(bodies[..|bodies| - 1], symbol); }
  }

  // The text kept for a function is the one lowered last.
  lemma {:induction false} LastOneCounts(functions: seq<Lowered>, i: nat)
    requires i < |functions| && forall j :: i < j < |functions| ==> functions[j].symbol != functions[i].symbol
    ensures functions[i].symbol in MirOf(functions) && MirOf(functions)[functions[i].symbol] == functions[i].mir
  {
    if i < |functions| - 1 { LastOneCounts(functions[..|functions| - 1], i); }
  }

  // The lowered functions are those whose every question is answered, each with its
  // filled outline.
  lemma {:induction false} LoweredExactly(bodies: seq<Body>, answers: nat -> map<string, string>, symbol: nat)
    requires OneBodyEach(bodies)
    ensures var b, mir := BodyFor(bodies, symbol), MirOf(LowerBodies(bodies, answers));
      && (symbol in mir <==> b.Some? && Fill(b.value.outline, answers(symbol)).Some?)
      && (symbol in mir ==> Some(mir[symbol]) == Fill(b.value.outline, answers(symbol)))
  {
    hide Fill;
    if bodies != [] {
      var front, last := bodies[..|bodies| - 1], bodies[|bodies| - 1];
      LoweredExactly(front, answers, symbol);
      if last.symbol == symbol { NoBodyFor(front, symbol); }
      var rest, text := LowerBodies(front, answers), Fill(last.outline, answers(last.symbol));
      if text.Some? {
        var one := Lowered(last.symbol, text.value, last.span);
        assert (rest + [one])[..|rest + [one]| - 1] == rest;
      }
    }
  }

  // A body hash is kept for exactly the lowered functions whose declaration can be
  // located, and is the fingerprint of that declaration.
  lemma {:induction false} BodyHashExactly(stages: Stages, bodies: seq<Body>, answers: nat -> map<string, string>,
        symbol: nat)
    requires OneBodyEach(bodies)
    ensures var b, hashes := BodyFor(bodies, symbol), BodiesOf(stages, LowerBodies(bodies, answers));
      && (symbol in hashes <==> b.Some? && b.value.span.Some? && Fill(b.value.outline, answers(symbol)).Some?)
      && (symbol in hashes ==> hashes[symbol] == stages.fingerprint(b.value.span.value))
  {
    hide Fill;
    if bodies != [] {
      var front, last := bodies[..|bodies| - 1], bodies[|bodies| - 1];
      BodyHashExactly(stages, front, answers, symbol);
      if last.symbol == symbol { NoBodyFor(front, symbol); }
      var rest, text := LowerBodies(front, answers), Fill(last.outline, answers(last.symbol));
      if text.Some? {
        var one := Lowered(last.symbol, text.value, last.span);
        assert (rest + [one])[..|rest + [one]| - 1] == rest;
      }
    }
  }

  lemma AcceptedIsLowered(stages: Stages, texts: seq<string>)
    requires stages.accepts(texts)
    ensures var lowered, p := LowerBodies(stages.bodies(texts), stages.answers(texts)),
      CompileWholeProgram(stages, texts);
      p.mir == MirOf(lowered) && p.fnBody == BodiesOf(stages, lowered)
  {}

  // ---- Answers ----

  predicate SameAnswer(a0: map<string, string>, a1: map<string, string>, q: string) {
    (q in a0 <==> q in a1) && (q in a0 ==> a0[q] == a1[q])
  }

  // Every question of the outline is answered alike, or in neither case.
  predicate SameAnswers(outline: seq<Piece>, a0: map<string, string>, a1: map<string, string>) {
    forall i :: 0 <= i < |outline| && outline[i].Asks? ==> SameAnswer(a0, a1, outline[i].question)
  }

  // Wherever a question stands, its answer can be told from the text that starts there.
  predicate ReadsBack(outline: seq<Piece>, a0: map<string, string>, a1: map<string, string>) {
    forall i :: 0 <= i < |outline| && outline[i].Asks? ==> ReadsBackAt(outline, a0, a1, i)
  }

  predicate ReadsBackAt(outline: seq<Piece>, a0: map<string, string>, a1: map<string, string>, i: nat)
    requires i < |outline| && outline[i].Asks?
  {
    Fill(outline[i..], a0).Some? && Fill(outline[i..], a0) == Fill(outline[i..], a1) ==>
      SameAnswer(a0, a1, outline[i].question)
  }

  lemma ReadsBackFurther(outline: seq<Piece>, a0: map<string, string>, a1: map<string, string>)
    requires outline != [] && ReadsBack(outline, a0, a1)
    ensures ReadsBack(outline[1..], a0, a1)
  {
    var rest := outline[1..];
    forall i | 0 <= i < |rest| && rest[i].Asks? ensures ReadsBackAt(rest, a0, a1, i) {
      assert ReadsBackAt(outline, a0, a1, i + 1);
      assert rest[i..] == outline[i + 1..];
    }
  }

  lemma SameAnswersFurther(outline: seq<Piece>, a0: map<string, string>, a1: map<string, string>)
    requires outline != []
    ensures SameAnswers(outline, a0, a1) <==> (
      && SameAnswers(outline[1..], a0, a1)
      && (outline[0].Asks? ==> SameAnswer(a0, a1, outline[0].question)))
  {
    var rest := outline[1..];
    if SameAnswers(rest, a0, a1) && (outline[0].Asks? ==> SameAnswer(a0, a1, outline[0].question)) {
      forall i | 0 <= i < |outline| && outline[i].Asks? ensures SameAnswer(a0, a1, outline[i].question) {
        if i > 0 { assert outline[i] == rest[i - 1]; }
      }
    }
    if SameAnswers(outline, a0, a1) {
      forall i | 0 <= i < |rest| && rest[i].Asks? ensures SameAnswer(a0, a1, rest[i].question) {
        assert rest[i] == outline[i + 1];
      }
    }
  }

  lemma {:induction false} SameAnswersFillAlike(outline: seq<Piece>, a0: map<string, string>, a1: map<string, string>)
    requires SameAnswers(outline, a0, a1)
    ensures Fill(outline, a0) == Fill(outline, a1)
  {
    if outline != [] {
      SameAnswersFurther(outline, a0, a1);
      SameAnswersFillAlike(outline[1..], a0, a1);
    }
  }

  lemma PrefixCancels(s: string, t0: string, t1: string)
    requires s + t0 == s + t1
    ensures t0 == t1
  {
    assert (s + t0)[|s|..] == t0 && (s + t1)[|s|..] == t1;
  }

  // An outline that can be filled comes out the same exactly when the answers are the
  // same.
  lemma {:induction false} FilledAlikeExactly(outline: seq<Piece>, a0: map<string, string>, a1: map<string, string>)
    requires Fill(outline, a0).Some? && ReadsBack(outline, a0, a1)
    ensures Fill(outline, a0) == Fill(outline, a1) <==> SameAnswers(outline, a0, a1)
  {
    if Fill(outline, a0) == Fill(outline, a1) && outline != [] {
      var rest := outline[1..];
      assert outline[0..] == outline;
      assert outline[0].Asks? ==> ReadsBackAt(outline, a0, a1, 0);
      PrefixCancels(if outline[0].Asks? then a0[outline[0].question] else outline[0].text,
                    Fill(rest, a0).value, Fill(rest, a1).value);
      ReadsBackFurther(outline, a0, a1);
      FilledAlikeExactly(rest, a0, a1);
      SameAnswersFurther(outline, a0, a1);
    }
    if SameAnswers(outline, a0, a1) { SameAnswersFillAlike(outline, a0, a1); }
  }

  // ---- Which answers read back ----

  // Neither is the other with something behind it.
  predicate Apart(u: string, v: string) { u <= v || v <= u ==> u == v }

  // Answers no one of which begins another read back, whatever stands behind them.
  lemma ApartReadsBack(outline: seq<Piece>, a0: map<string, string>, a1: map<string, string>)
    requires forall q :: q in a0 && q in a1 ==> Apart(a0[q], a1[q])
    ensures ReadsBack(outline, a0, a1)
  {
    forall i | 0 <= i < |outline| && outline[i].Asks? ensures ReadsBackAt(outline, a0, a1, i) {
      var q, from := outline[i].question, outline[i..];
      if Fill(from, a0).Some? && Fill(from, a0) == Fill(from, a1) {
        assert from[0] == Asks(q) && q in a0 && q in a1;
        var text := Fill(from, a0).value;
        assert text[..|a0[q]|] == a0[q] && text[..|a1[q]|] == a1[q];
        assert if |a0[q]| <= |a1[q]| then a0[q] <= a1[q] else a1[q] <= a0[q];
      }
    }
  }

  function IntText(v: int): (s: string)
    ensures forall i :: 0 <= i < |s| ==> s[i] != '_'
  {
    if v < 0 then "-" + Decimal(-v) else Decimal(v)
  }

  // An integer constant as MIR shows it.
  function IntConstant(v: int, kind: string): string { IntText(v) + "_" + kind }

  lemma IntTextInjective(u: int, v: int)
    requires IntText(u) == IntText(v)
    ensures u == v
  {
    assert u < 0 <==> IntText(u)[0] == '-';
    assert v < 0 <==> IntText(v)[0] == '-';
    if u < 0 {
      assert IntText(u)[1..] == Decimal(-u) && IntText(v)[1..] == Decimal(-v);
      DecimalInjective(-u, -v);
    } else {
      DecimalInjective(u, v);
    }
  }

  // Two different integer constants of a kind are apart.
  lemma IntConstantsAreApart(u: int, v: int, kind: string)
    ensures Apart(IntConstant(u, kind), IntConstant(v, kind))
    ensures IntConstant(u, kind) == IntConstant(v, kind) ==> u == v
  {
    hide IntText;
    var a, b := IntConstant(u, kind), IntConstant(v, kind);
    if a <= b || b <= a {
      var n := if |a| <= |b| then |IntText(u)| else |IntText(v)|;
      assert a[|IntText(u)|] == '_' && b[|IntText(v)|] == '_';
      assert a[n] == b[n];
      assert |IntText(u)| == |IntText(v)|;
      assert a[..|IntText(u)|] == IntText(u) && b[..|IntText(v)|] == IntText(v);
      IntTextInjective(u, v);
    }
  }
}

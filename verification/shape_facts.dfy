// Which tokens a shape keeps, and what a program's header does to it.

module ShapeFacts {
  import opened Decimals
  import opened SpecStripping
  import opened ProgramShapes

  // ---- Kept, dropped, numbered ----

  // The reserved words of the language, as its lexer has them.
  predicate IsReserved(tok: string) {
    || tok == "module" || tok == "import" || tok == "pub" || tok == "fn" || tok == "let" || tok == "var"
    || tok == "const" || tok == "struct" || tok == "enum" || tok == "interface" || tok == "impl" || tok == "where"
    || tok == "if" || tok == "else" || tok == "match" || tok == "for" || tok == "in" || tok == "while"
    || tok == "loop" || tok == "break" || tok == "continue" || tok == "return" || tok == "take" || tok == "mut"
    || tok == "move" || tok == "Box" || tok == "Shared" || tok == "Weak" || tok == "spec" || tok == "given"
    || tok == "when" || tok == "then" || tok == "assert" || tok == "unsafe" || tok == "as" || tok == "true"
    || tok == "false" || tok == "self" || tok == "Self"
  }

  // The tool's keywords are the language's reserved words.
  lemma KeywordsAreReserved(tok: string)
    ensures tok in KEYWORDS <==> IsReserved(tok)
  {}

  predicate InPath(toks: seq<string>, i: nat)
    requires i < |toks|
  {
    (i > 0 && toks[i - 1] == "::") || (i + 1 < |toks| && toks[i + 1] == "::")
  }

  predicate IsName(tok: string) { tok != "" && ('a' <= tok[0] <= 'z' || tok[0] == '_') && !IsReserved(tok) }

  // Only lower-case names that are no reserved word, no part of a path and not the
  // module's own are numbered; only `pub` and the module's name are dropped; literals
  // show their kind; and every other token is kept as it is written.
  lemma ShapeKeepsExactly(toks: seq<string>, i: nat)
    requires Tokens(toks) && i < |toks|
    ensures var tok, named := toks[i], i > 0 && toks[i - 1] == "module";
      && (Classify(toks, i).Local? <==> IsName(tok) && !InPath(toks, i) && !named)
      && (Classify(toks, i).Dropped? <==> tok == "pub" || (IsName(tok) && !InPath(toks, i) && named))
      && (Classify(toks, i) == StrLiteral <==> tok[0] == '"')
      && (Classify(toks, i) == ChrLiteral <==> tok[0] == '\'')
      && (Classify(toks, i) == NumLiteral <==> '0' <= tok[0] <= '9')
      && (Classify(toks, i).Local? ==> Classify(toks, i).name == tok)
      && (Classify(toks, i).Kept? ==> Classify(toks, i).tok == tok)
  {
    hide KEYWORDS;
    KeywordsAreReserved(toks[i]);
    KeywordsAreReserved("pub");
  }

  // ---- A module header ----

  lemma {:induction false} HeaderEndShifts(front: seq<string>, toks: seq<string>, j: nat)
    requires j <= |toks|
    ensures HeaderEnd(front + toks, |front| + j) == |front| + HeaderEnd(toks, j)
    decreases |toks| - j
  {
    if j < |toks| { HeaderEndShifts(front, toks, j + 1); }
  }

  lemma {:induction false} GroupEndShifts(front: seq<string>, toks: seq<string>, j: nat, depth: int)
    requires j <= |toks|
    ensures GroupEnd(front + toks, |front| + j, depth) == |front| + GroupEnd(toks, j, depth)
    decreases |toks| - j
  {
    if j < |toks| { GroupEndShifts(front, toks, j + 1, depth + Step(toks[j])); }
  }

  // Behind a separator a stream is stripped as if it stood alone.
  lemma {:induction false} StrippedShifts(front: seq<string>, toks: seq<string>, i: nat)
    requires i <= |toks| && front != [] && Separator(front[|front| - 1])
    ensures Stripped(front + toks, |front| + i) == Stripped(toks, i)
    decreases |toks| - i
  {
    hide StartsSpec, SpecEnd, Separator;
    if i < |toks| {
      SpecShifts(front, toks, i);
      StrippedShifts(front, toks, if StartsSpec(toks, i) then SpecEnd(toks, i) else i + 1);
      assert (front + toks)[|front| + i] == toks[i];
    }
  }

  lemma SpecShifts(front: seq<string>, toks: seq<string>, i: nat)
    requires i < |toks| && front != [] && Separator(front[|front| - 1])
    ensures StartsSpec(front + toks, |front| + i) <==> StartsSpec(toks, i)
    ensures StartsSpec(toks, i) ==> SpecEnd(front + toks, |front| + i) == |front| + SpecEnd(toks, i)
  {
    hide HeaderEnd, GroupEnd;
    HeaderEndShifts(front, toks, i);
    GroupEndShifts(front, toks, HeaderEnd(toks, i), 0);
  }

  function Header(name: string): seq<string> { ["module", name, ";"] }

  lemma HeaderIsKept(name: string, toks: seq<string>)
    requires IsName(name) && Tokens(toks)
    ensures Tokens(Header(name) + toks) && Tokens(Stripped(toks, 0))
    ensures Stripped(Header(name) + toks, 0) == Header(name) + Stripped(toks, 0)
  {
    hide Stripped;
    var all := Header(name) + toks;
    assert all[0] == "module" && all[1] == name && all[2] == ";";
    forall k | 0 <= k < 3 ensures !StartsSpec(all, k) {
      assert k == 0 || k == 1 || k == 2;
    }
    Copied(all, 0, 3);
    assert all[0..3] == Header(name);
    StrippedShifts(Header(name), toks, 0);
    StrippedAreTokens(toks, 0);
  }

  lemma ClassShifts(name: string, toks: seq<string>, i: nat)
    requires IsName(name) && Tokens(toks) && Tokens(Header(name) + toks) && i < |toks|
    ensures Classify(Header(name) + toks, 3 + i) == Classify(toks, i)
  {
    hide KEYWORDS;
    var all := Header(name) + toks;
    assert all[3 + i] == toks[i] && all[2] == ";";
    assert i > 0 ==> all[3 + i - 1] == toks[i - 1];
    assert i + 1 < |toks| ==> all[3 + i + 1] == toks[i + 1];
  }

  lemma HeaderClasses(name: string, toks: seq<string>)
    requires IsName(name) && Tokens(Header(name) + toks)
    ensures Classes(Header(name) + toks, 3) == [Kept("module"), Kept(";")]
  {
    hide KEYWORDS;
    var all := Header(name) + toks;
    assert all[0] == "module" && all[1] == name && all[2] == ";";
    KeywordsAreReserved("module");
    KeywordsAreReserved(name);
    assert Classify(all, 0) == Kept("module");
    assert Classify(all, 1) == Dropped;
    assert Classify(all, 2) == Kept(";");
    assert Classes(all, 0) == [];
    assert Classes(all, 1) == [Kept("module")];
    assert Classes(all, 2) == [Kept("module")];
  }

  lemma {:induction false} ClassesShift(name: string, toks: seq<string>, n: nat)
    requires IsName(name) && Tokens(toks) && Tokens(Header(name) + toks) && n <= |toks|
    ensures Classes(Header(name) + toks, 3 + n) == [Kept("module"), Kept(";")] + Classes(toks, n)
  {
    hide Classify, Header;
    if n == 0 {
      HeaderClasses(name, toks);
    } else {
      ClassesShift(name, toks, n - 1);
      ClassShifts(name, toks, n - 1);
    }
  }

  lemma {:induction false} NamesBehindKept(front: seq<Class>, cs: seq<Class>)
    requires forall i :: 0 <= i < |front| ==> front[i].Kept?
    ensures NamesIn(front + cs) == NamesIn(cs)
    decreases |cs|
  {
    if cs == [] {
      NoNames(front);
      assert front + cs == front;
    } else {
      NamesBehindKept(front, cs[..|cs| - 1]);
      assert (front + cs)[..|front + cs| - 1] == front + cs[..|cs| - 1];
    }
  }

  lemma {:induction false} NoNames(cs: seq<Class>)
    requires forall i :: 0 <= i < |cs| ==> cs[i].Kept?
    ensures NamesIn(cs) == []
  {
    if cs != [] { NoNames(cs[..|cs| - 1]); }
  }

  // A module header leaves its keyword and its semicolon in front of the shape of what
  // follows, and nothing of the module's name.
  lemma HeaderLeavesTwo(name: string, toks: seq<string>)
    requires IsName(name) && Tokens(toks)
    ensures Tokens(Header(name) + toks) && ShapeOf(Header(name) + toks) == ["module", ";"] + ShapeOf(toks)
  {
    hide Classes, Stripped, Header, NamesIn, IsName;
    HeaderIsKept(name, toks);
    var rest := Stripped(toks, 0);
    var front, cs := [Kept("module"), Kept(";")], Classes(rest, |rest|);
    HeaderTokens(name, rest);
    ClassesShift(name, rest, |rest|);
    ClassesAreRelevant(rest, |rest|);
    NamesBehindKept(front, cs);
    assert TagsOf(front + cs) == [Keep("module"), Keep(";")] + TagsOf(cs);
    assert RenderedAll(TagsOf(front + cs)) == ["module", ";"] + RenderedAll(TagsOf(cs));
  }

  lemma HeaderTokens(name: string, toks: seq<string>)
    requires IsName(name) && Tokens(toks)
    ensures Tokens(Header(name) + toks) && |Header(name) + toks| == 3 + |toks|
  {
    var all := Header(name) + toks;
    forall i | 0 <= i < |all| ensures all[i] != "" {
      assert i >= 3 ==> all[i] == toks[i - 3];
    }
  }
}

// The normalized shape of a program's token stream, and why it is a canonical
// form: two programs have the same shape exactly when one is the other with its
// local names renamed and its literals replaced by literals of the same kind.

module ProgramShapes {
  import opened Decimals
  import opened SpecStripping

  const KEYWORDS: set<string> := {
    "module", "import", "pub", "fn", "let", "var", "const", "struct", "enum", "interface", "impl",
    "where", "if", "else", "match", "for", "in", "while", "loop", "break", "continue", "return",
    "take", "mut", "move", "Box", "Shared", "Weak", "spec", "given", "when", "then", "assert",
    "unsafe", "as", "true", "false", "self", "Self"
  }

  // The tokenizer yields no empty token.
  predicate Tokens(toks: seq<string>) {
    forall i :: 0 <= i < |toks| ==> toks[i] != ""
  }

  // What a token counts as, where it stands.
  datatype Class = Dropped | StrLiteral | ChrLiteral | NumLiteral | Kept(tok: string) | Local(name: string)

  predicate StartsLower(tok: string)
    requires tok != ""
  {
    'a' <= tok[0] <= 'z' || tok[0] == '_'
  }

  predicate PathSegment(toks: seq<string>, i: nat)
    requires i < |toks|
  {
    (i > 0 && toks[i - 1] == "::") || (i + 1 < |toks| && toks[i + 1] == "::")
  }

  function Classify(toks: seq<string>, i: nat): Class
    requires Tokens(toks) && i < |toks|
  {
    var tok := toks[i];
    if tok[0] == '"' then StrLiteral
    else if tok[0] == '\'' then ChrLiteral
    else if IsDigit(tok[0]) then NumLiteral
    else if tok == "pub" then Dropped
    else if tok in KEYWORDS || !StartsLower(tok) then Kept(tok)
    else if PathSegment(toks, i) then Kept(tok)
    else if i > 0 && toks[i - 1] == "module" then Dropped
    else Local(tok)
  }

  // The classes of the first `n` tokens, dropped ones left out.
  function Classes(toks: seq<string>, n: nat): seq<Class>
    requires Tokens(toks) && n <= |toks|
  {
    if n == 0 then []
    else
      var c := Classify(toks, n - 1);
      Classes(toks, n - 1) + (if c.Dropped? then [] else [c])
  }

  // ---- Numbering names by first occurrence ----

  function Position(names: seq<string>, x: string): nat {
    if names == [] || names[0] == x then 0 else 1 + Position(names[1..], x)
  }

  // The distinct local names, in order of first occurrence.
  function NamesIn(cs: seq<Class>): seq<string> {
    if cs == [] then []
    else
      var names := NamesIn(cs[..|cs| - 1]);
      var c := cs[|cs| - 1];
      if c.Local? && c.name !in names then names + [c.name] else names
  }

  // The shape before rendering: what is kept, and which name by number.
  datatype Tag = STR | CHR | NUM | Keep(tok: string) | Var(index: nat)

  function TagOf(c: Class, names: seq<string>): Tag
    requires !c.Dropped?
  {
    match c
    case StrLiteral => STR
    case ChrLiteral => CHR
    case NumLiteral => NUM
    case Kept(tok) => Keep(tok)
    case Local(x) => Var(Position(names, x))
  }

  predicate Relevant(cs: seq<Class>) {
    forall i :: 0 <= i < |cs| ==> !cs[i].Dropped?
  }

  function TagsOf(cs: seq<Class>): seq<Tag>
    requires Relevant(cs)
  {
    var names := NamesIn(cs);
    seq(|cs|, i requires 0 <= i < |cs| => TagOf(cs[i], names))
  }

  function Rendered(t: Tag): string {
    match t
    case STR => "STR"
    case CHR => "CHR"
    case NUM => "NUM"
    case Keep(tok) => tok
    case Var(index) => "v" + Decimal(index)
  }

  function RenderedAll(tags: seq<Tag>): seq<string> {
    seq(|tags|, i requires 0 <= i < |tags| => Rendered(tags[i]))
  }

  lemma {:induction false} ClassesAreRelevant(toks: seq<string>, n: nat)
    requires Tokens(toks) && n <= |toks|
    ensures Relevant(Classes(toks, n))
  {
    if n > 0 { ClassesAreRelevant(toks, n - 1); }
  }

  function TokenTags(toks: seq<string>): seq<Tag>
    requires Tokens(toks)
  {
    ClassesAreRelevant(toks, |toks|);
    TagsOf(Classes(toks, |toks|))
  }

  lemma {:induction false} StrippedAreTokens(toks: seq<string>, i: nat)
    requires Tokens(toks) && i <= |toks|
    ensures Tokens(Stripped(toks, i))
    decreases |toks| - i
  {
    if i < |toks| { StrippedAreTokens(toks, if StartsSpec(toks, i) then SpecEnd(toks, i) else i + 1); }
  }

  function ShapeTags(toks: seq<string>): seq<Tag>
    requires Tokens(toks)
  {
    StrippedAreTokens(toks, 0);
    TokenTags(Stripped(toks, 0))
  }

  // The shape of a program given by its tokens.
  function ShapeOf(toks: seq<string>): seq<string>
    requires Tokens(toks)
  {
    RenderedAll(ShapeTags(toks))
  }

  // ---- Facts about numbering ----

  predicate Distinct(names: seq<string>) {
    forall i, j :: 0 <= i < j < |names| ==> names[i] != names[j]
  }

  lemma {:induction false} PositionFinds(names: seq<string>, x: string)
    requires x in names
    ensures Position(names, x) < |names| && names[Position(names, x)] == x
  {
    if names[0] != x { PositionFinds(names[1..], x); }
  }

  lemma {:induction false} PositionStays(names: seq<string>, more: seq<string>, x: string)
    requires x in names
    ensures Position(names + more, x) == Position(names, x)
  {
    if names[0] != x {
      assert (names + more)[1..] == names[1..] + more;
      PositionStays(names[1..], more, x);
    }
  }

  lemma {:induction false} PositionOfNew(names: seq<string>, x: string)
    requires x !in names
    ensures Position(names + [x], x) == |names|
  {
    if names != [] {
      assert (names + [x])[1..] == names[1..] + [x];
      PositionOfNew(names[1..], x);
    }
  }

  lemma {:induction false} NamesAreDistinct(cs: seq<Class>)
    ensures Distinct(NamesIn(cs))
    ensures forall i :: 0 <= i < |cs| && cs[i].Local? ==> cs[i].name in NamesIn(cs)
  {
    if cs != [] {
      NamesAreDistinct(cs[..|cs| - 1]);
      forall i | 0 <= i < |cs| && cs[i].Local? ensures cs[i].name in NamesIn(cs) {
        if i < |cs| - 1 { assert cs[..|cs| - 1][i] == cs[i]; }
      }
    }
  }

  // ---- The loop ----

  // The dictionary the loop keeps: each name seen so far, numbered.
  ghost predicate Numbers(dict: map<string, string>, names: seq<string>) {
    && |dict| == |names|
    && (forall x :: x in dict <==> x in names)
    && (forall x :: x in names ==> dict[x] == "v" + Decimal(Position(names, x)))
  }

  // What the loop has appended for `cs`.
  function EmittedAll(cs: seq<Class>): seq<string>
    requires Relevant(cs)
  {
    RenderedAll(TagsOf(cs))
  }

  // Appending a class leaves earlier numbers alone and appends its own.
  lemma EmitsOneMore(cs: seq<Class>, c: Class)
    requires Relevant(cs) && !c.Dropped?
    ensures Relevant(cs + [c])
    ensures EmittedAll(cs + [c]) == EmittedAll(cs) + [Rendered(TagOf(c, NamesIn(cs + [c])))]
  {
    var names, more := NamesIn(cs), NamesIn(cs + [c]);
    assert (cs + [c])[..|cs|] == cs;
    NamesAreDistinct(cs);
    forall i | 0 <= i < |cs| ensures TagOf(cs[i], more) == TagOf(cs[i], names) {
      if cs[i].Local? && more != names { PositionStays(names, [c.name], cs[i].name); }
    }
    assert EmittedAll(cs + [c])[..|cs|] == EmittedAll(cs);
  }

  lemma NumbersOneMore(dict: map<string, string>, names: seq<string>, x: string)
    requires Numbers(dict, names) && x !in names
    ensures Numbers(dict[x := "v" + Decimal(|dict|)], names + [x])
  {
    PositionOfNew(names, x);
    forall y | y in names ensures Position(names + [x], y) == Position(names, y) {
      PositionStays(names, [x], y);
    }
  }

  // The dictionary's `setdefault`: the number of `x`, given one if it is new.
  method NumberOf(dict: map<string, string>, ghost before: seq<Class>, x: string)
    returns (grown: map<string, string>, text: string)
    requires Numbers(dict, NamesIn(before))
    ensures Numbers(grown, NamesIn(before + [Local(x)]))
    ensures text == Rendered(TagOf(Local(x), NamesIn(before + [Local(x)])))
  {
    assert (before + [Local(x)])[..|before|] == before;
    grown := dict;
    if x !in dict {
      NumbersOneMore(dict, NamesIn(before), x);
      grown := dict[x := "v" + Decimal(|dict|)];
    }
    text := grown[x];
  }

  lemma OtherClassesKeepNames(before: seq<Class>, c: Class)
    requires !c.Local?
    ensures NamesIn(before + [c]) == NamesIn(before)
  {
    assert (before + [c])[..|before|] == before;
  }

  method Normalize(toks: seq<string>) returns (out: seq<string>)
    requires Tokens(toks)
    ensures out == RenderedAll(TokenTags(toks))
  {
    hide Classify, Numbers, NamesIn, EmittedAll, RenderedAll;
    var names: map<string, string> := map[];
    out := [];
    NothingEmitted();
    for i := 0 to |toks|
      invariant Relevant(Classes(toks, i))
      invariant out == EmittedAll(Classes(toks, i))
      invariant Numbers(names, NamesIn(Classes(toks, i)))
    {
      var c := Classify(toks, i);
      ghost var before := Classes(toks, i);
      assert before + [] == before;
      assert Classes(toks, i + 1) == before + (if c.Dropped? then [] else [c]);
      if !c.Dropped? {
        EmitsOneMore(before, c);
        var text;
        if c.Local? {
          names, text := NumberOf(names, before, c.name);
        } else {
          OtherClassesKeepNames(before, c);
          text := Rendered(TagOf(c, []));
        }
        out := out + [text];
      }
    }
    WholeIsEmitted(toks);
  }

  lemma NothingEmitted()
    ensures EmittedAll([]) == [] && Numbers(map[], NamesIn([]))
  {}

  lemma WholeIsEmitted(toks: seq<string>)
    requires Tokens(toks) && Relevant(Classes(toks, |toks|))
    ensures EmittedAll(Classes(toks, |toks|)) == RenderedAll(TokenTags(toks))
  {}

  // `source`'s normalized token stream.
  method Shape(toks: seq<string>) returns (out: seq<string>)
    requires Tokens(toks)
    ensures out == ShapeOf(toks)
  {
    var stripped := WithoutSpecs(toks);
    StrippedAreTokens(toks, 0);
    out := Normalize(stripped);
  }

  // ---- Canonical form ----

  // `ren` renames local names, injectively, and literals keep their kind.
  ghost predicate Injective(ren: map<string, string>) {
    forall x, y :: x in ren && y in ren && ren[x] == ren[y] ==> x == y
  }

  predicate Renamed(a: Class, b: Class, ren: map<string, string>) {
    match a
    case Local(x) => b.Local? && x in ren && b.name == ren[x]
    case _ => b == a
  }

  ghost predicate RenamedBy(cs: seq<Class>, ds: seq<Class>, ren: map<string, string>) {
    && Injective(ren) && |cs| == |ds|
    && forall i :: 0 <= i < |cs| ==> Renamed(cs[i], ds[i], ren)
  }

  ghost predicate AlphaEquivalent(cs: seq<Class>, ds: seq<Class>) {
    exists ren :: RenamedBy(cs, ds, ren)
  }

  lemma {:induction false} NamesRename(cs: seq<Class>, ds: seq<Class>, ren: map<string, string>)
    requires RenamedBy(cs, ds, ren)
    ensures |NamesIn(cs)| == |NamesIn(ds)|
    ensures forall k :: 0 <= k < |NamesIn(cs)| ==> NamesIn(cs)[k] in ren && NamesIn(ds)[k] == ren[NamesIn(cs)[k]]
  {
    if cs != [] {
      var n := |cs| - 1;
      NamesRename(cs[..n], ds[..n], ren);
      assert Renamed(cs[n], ds[n], ren);
    }
  }

  lemma {:induction false} PositionRenames(names: seq<string>, others: seq<string>, ren: map<string, string>, x: string)
    requires Injective(ren) && |names| == |others| && x in ren
    requires forall k :: 0 <= k < |names| ==> names[k] in ren && others[k] == ren[names[k]]
    ensures Position(names, x) == Position(others, ren[x])
  {
    if names != [] && names[0] != x { PositionRenames(names[1..], others[1..], ren, x); }
  }

  // Renaming locals injectively and replacing literals by others of their kind
  // leaves the shape as it is.
  lemma RenamingKeepsShape(cs: seq<Class>, ds: seq<Class>)
    requires Relevant(cs) && Relevant(ds) && AlphaEquivalent(cs, ds)
    ensures TagsOf(cs) == TagsOf(ds)
  {
    var ren :| RenamedBy(cs, ds, ren);
    NamesRename(cs, ds, ren);
    forall i | 0 <= i < |cs| ensures TagsOf(cs)[i] == TagsOf(ds)[i] {
      assert Renamed(cs[i], ds[i], ren);
      if cs[i].Local? { PositionRenames(NamesIn(cs), NamesIn(ds), ren, cs[i].name); }
    }
  }

  // The renaming two equal shapes define: the name with the same number.
  ghost function Matching(names: seq<string>, others: seq<string>): map<string, string> {
    map x | x in names && Position(names, x) < |others| :: others[Position(names, x)]
  }

  lemma MatchingIsInjective(names: seq<string>, others: seq<string>)
    requires Distinct(others)
    ensures Injective(Matching(names, others))
  {
    forall x, y | x in Matching(names, others) && y in Matching(names, others)
        && Matching(names, others)[x] == Matching(names, others)[y]
      ensures x == y
    {
      PositionFinds(names, x);
      PositionFinds(names, y);
      assert Position(names, x) == Position(names, y);
    }
  }

  // Equal tagged shapes come only from renaming.
  lemma EqualShapesAreRenamings(cs: seq<Class>, ds: seq<Class>)
    requires Relevant(cs) && Relevant(ds) && TagsOf(cs) == TagsOf(ds)
    ensures AlphaEquivalent(cs, ds)
  {
    var names, others := NamesIn(cs), NamesIn(ds);
    NamesAreDistinct(cs);
    NamesAreDistinct(ds);
    var ren := Matching(names, others);
    MatchingIsInjective(names, others);
    forall i | 0 <= i < |cs| ensures Renamed(cs[i], ds[i], ren) {
      assert TagsOf(cs)[i] == TagsOf(ds)[i];
      if cs[i].Local? {
        PositionFinds(names, cs[i].name);
        PositionFinds(others, ds[i].name);
      }
    }
    assert RenamedBy(cs, ds, ren);
  }

  // ---- Renaming in the source ----

  // What a local name may be renamed to.
  predicate LocalLike(tok: string) {
    tok != "" && StartsLower(tok) && tok !in KEYWORDS && tok != "pub"
  }

  // The token that may replace `s[i]`: a renamed local, a literal of the same
  // kind, or the token itself.
  predicate Replaces(s: seq<string>, i: nat, tok: string, ren: map<string, string>)
    requires Tokens(s) && i < |s|
  {
    match Classify(s, i)
    case Local(x) => x in ren && tok == ren[x] && LocalLike(tok)
    case StrLiteral => tok != "" && tok[0] == '"'
    case ChrLiteral => tok != "" && tok[0] == '\''
    case NumLiteral => tok != "" && IsDigit(tok[0])
    case _ => tok == s[i]
  }

  ghost predicate RenamedTokens(s: seq<string>, t: seq<string>, ren: map<string, string>)
    requires Tokens(s)
  {
    && Injective(ren) && |s| == |t|
    && forall i :: 0 <= i < |s| ==> Replaces(s, i, t[i], ren)
  }

  // A replacement is never a token that decides how its neighbours count or what is
  // stripped.
  lemma ReplacementIsNoSign(s: seq<string>, i: nat, tok: string, ren: map<string, string>)
    requires Tokens(s) && i < |s| && Replaces(s, i, tok, ren)
    ensures tok != "" && (tok == "::" <==> s[i] == "::") && (tok == "module" <==> s[i] == "module")
    ensures SameSign(s[i], tok)
  {
    assert "module" in KEYWORDS && "spec" in KEYWORDS;
  }

  lemma ReplacementKeepsClass(s: seq<string>, t: seq<string>, ren: map<string, string>, i: nat)
    requires Tokens(s) && RenamedTokens(s, t, ren) && Tokens(t) && i < |s|
    ensures Renamed(Classify(s, i), Classify(t, i), ren)
  {
    hide KEYWORDS;
    assert Replaces(s, i, t[i], ren);
    if i > 0 {
      assert Replaces(s, i - 1, t[i - 1], ren);
      ReplacementIsNoSign(s, i - 1, t[i - 1], ren);
    }
    if i + 1 < |s| {
      assert Replaces(s, i + 1, t[i + 1], ren);
      ReplacementIsNoSign(s, i + 1, t[i + 1], ren);
    }
  }

  lemma {:induction false} ReplacementKeepsClasses(s: seq<string>, t: seq<string>, ren: map<string, string>, n: nat)
    requires Tokens(s) && RenamedTokens(s, t, ren) && Tokens(t) && n <= |s|
    ensures RenamedBy(Classes(s, n), Classes(t, n), ren)
  {
    hide Classify;
    if n > 0 {
      ReplacementKeepsClasses(s, t, ren, n - 1);
      ReplacementKeepsClass(s, t, ren, n - 1);
    }
  }

  // A renamed stream has the tags of the original.
  lemma RenamedStreamHasSameTags(s: seq<string>, t: seq<string>, ren: map<string, string>)
    requires Tokens(s) && RenamedTokens(s, t, ren)
    ensures Tokens(t) && TokenTags(s) == TokenTags(t)
  {
    hide KEYWORDS, Replaces;
    forall i | 0 <= i < |t| ensures t[i] != "" {
      assert Replaces(s, i, t[i], ren);
      ReplacementIsNoSign(s, i, t[i], ren);
    }
    ReplacementKeepsClasses(s, t, ren, |s|);
    ClassesAreRelevant(s, |s|);
    ClassesAreRelevant(t, |t|);
    RenamingKeepsShape(Classes(s, |s|), Classes(t, |t|));
  }

  // A token left counts as it did in the whole stream: what it meets across a removed
  // block decides nothing.
  lemma StrippingKeepsClass(s: seq<string>, k: nat)
    requires Tokens(s) && k < |Stripped(s, 0)|
    ensures k < |Places(s, 0)| && Places(s, 0)[k] < |s| && Tokens(Stripped(s, 0))
    ensures Classify(Stripped(s, 0), k) == Classify(s, Places(s, 0)[k])
  {
    hide KEYWORDS, Stripped, Places;
    var out, at := Stripped(s, 0), Places(s, 0);
    StrippedAreTokens(s, 0);
    StrippedIsSubsequence(s, 0);
    PlacesMeet(s, 0, k);
    assert out[k] == s[at[k]];
    assert k > 0 ==> out[k - 1] == s[at[k - 1]];
    assert k + 1 < |out| ==> out[k + 1] == s[at[k + 1]];
  }

  // Renaming commutes with stripping.
  lemma RenamingCommutes(s: seq<string>, t: seq<string>, ren: map<string, string>)
    requires Tokens(s) && RenamedTokens(s, t, ren)
    ensures Tokens(Stripped(s, 0)) && RenamedTokens(Stripped(s, 0), Stripped(t, 0), ren)
  {
    hide KEYWORDS, Stripped, Places, Replaces, Injective;
    forall i | 0 <= i < |s| ensures SameSign(s[i], t[i]) {
      assert Replaces(s, i, t[i], ren);
      ReplacementIsNoSign(s, i, t[i], ren);
    }
    SamePlaces(s, t, 0);
    StrippedAreTokens(s, 0);
    StrippedIsSubsequence(s, 0);
    StrippedIsSubsequence(t, 0);
    var out, at := Stripped(s, 0), Places(s, 0);
    forall k | 0 <= k < |out| ensures Replaces(out, k, Stripped(t, 0)[k], ren) {
      StrippingKeepsClass(s, k);
      SameReplacement(s, at[k], out, k, t[at[k]], ren);
    }
  }

  lemma SameReplacement(s: seq<string>, i: nat, out: seq<string>, k: nat, tok: string, ren: map<string, string>)
    requires Tokens(s) && Tokens(out) && i < |s| && k < |out| && out[k] == s[i]
    requires Classify(out, k) == Classify(s, i) && Replaces(s, i, tok, ren)
    ensures Replaces(out, k, tok, ren)
  {
    hide Classify;
  }

  // A renamed copy of a program, spec blocks and all, has the shape of the original.
  lemma RenamedCopyHasSameShape(s: seq<string>, t: seq<string>, ren: map<string, string>)
    requires Tokens(s) && RenamedTokens(s, t, ren)
    ensures Tokens(t) && ShapeTags(s) == ShapeTags(t) && ShapeOf(s) == ShapeOf(t)
  {
    hide TokenTags, RenamedTokens, Rendered, Stripped;
    RenamingCommutes(s, t, ren);
    RenamedStreamHasSameTags(s, t, ren);
    RenamedStreamHasSameTags(Stripped(s, 0), Stripped(t, 0), ren);
  }

  // ---- Rendering ----

  // A kept token that reads like a rendered literal or a numbered name.
  predicate Clashes(tok: string) {
    tok == "STR" || tok == "CHR" || tok == "NUM"
    || (|tok| > 1 && tok[0] == 'v' && forall i :: 1 <= i < |tok| ==> IsDigit(tok[i]))
  }

  ghost predicate ClashFree(tags: seq<Tag>) {
    forall i :: 0 <= i < |tags| && tags[i].Keep? ==> !Clashes(tags[i].tok)
  }

  lemma RenderedInjective(s: Tag, t: Tag)
    requires s.Keep? ==> !Clashes(s.tok)
    requires t.Keep? ==> !Clashes(t.tok)
    requires Rendered(s) == Rendered(t)
    ensures s == t
  {
    if s.Var? && t.Var? {
      assert Rendered(s)[1..] == Decimal(s.index) && Rendered(t)[1..] == Decimal(t.index);
      DecimalInjective(s.index, t.index);
    } else if s.Var? {
      assert Rendered(s)[1..] == Decimal(s.index) && Rendered(s)[0] == 'v';
      VarClashes(s.index);
    } else if t.Var? {
      assert Rendered(t)[0] == 'v';
      VarClashes(t.index);
    }
  }

  lemma VarClashes(index: nat)
    ensures Clashes(Rendered(Var(index)))
  {
    var s := Rendered(Var(index));
    forall i | 1 <= i < |s| ensures IsDigit(s[i]) {
      assert s[i] == Decimal(index)[i - 1];
    }
  }

  // The two streams keep tokens as they are in the same places.
  predicate KeepAlike(a: seq<Tag>, b: seq<Tag>) {
    |a| == |b| && forall i :: 0 <= i < |a| ==> (a[i].Keep? <==> b[i].Keep?)
  }

  lemma RenderedAlikeInjective(s: Tag, t: Tag)
    requires (s.Keep? <==> t.Keep?) && Rendered(s) == Rendered(t)
    ensures s == t
  {
    assert s.Var? ==> Rendered(s)[0] == 'v';
    assert t.Var? ==> Rendered(t)[0] == 'v';
    if s.Var? && t.Var? {
      assert Rendered(s)[1..] == Decimal(s.index) && Rendered(t)[1..] == Decimal(t.index);
      DecimalInjective(s.index, t.index);
    }
  }

  // Two programs are the same up to renaming if and only if their rendered shapes are
  // equal and keep tokens in the same places. So equal rendered shapes decide rightly
  // about two programs exactly when they keep tokens in the same places.
  lemma SameShapeExactly(s: seq<string>, t: seq<string>)
    requires Tokens(s) && Tokens(t)
    ensures AlphaEquivalent(Classes(s, |s|), Classes(t, |t|)) <==>
      RenderedAll(TokenTags(s)) == RenderedAll(TokenTags(t)) && KeepAlike(TokenTags(s), TokenTags(t))
  {
    hide Classes, Rendered, NamesIn;
    var cs, ds := Classes(s, |s|), Classes(t, |t|);
    ClassesAreRelevant(s, |s|);
    ClassesAreRelevant(t, |t|);
    var tags, others := TokenTags(s), TokenTags(t);
    if RenderedAll(tags) == RenderedAll(others) && KeepAlike(tags, others) {
      forall i | 0 <= i < |tags| ensures tags[i] == others[i] {
        assert RenderedAll(tags)[i] == RenderedAll(others)[i];
        RenderedAlikeInjective(tags[i], others[i]);
      }
      assert tags == others;
      EqualShapesAreRenamings(cs, ds);
    }
    if AlphaEquivalent(cs, ds) { RenamingKeepsShape(cs, ds); }
  }

  // Where no kept token looks like a rendered literal or number, two programs have
  // the same rendered shape if and only if they are the same up to renaming.
  lemma ClashFreeShapesDecide(s: seq<string>, t: seq<string>)
    requires Tokens(s) && Tokens(t)
    requires ClashFree(TokenTags(s)) && ClashFree(TokenTags(t))
    ensures RenderedAll(TokenTags(s)) == RenderedAll(TokenTags(t))
      <==> AlphaEquivalent(Classes(s, |s|), Classes(t, |t|))
  {
    hide Classes, Clashes, NamesIn;
    var cs, ds := Classes(s, |s|), Classes(t, |t|);
    ClassesAreRelevant(s, |s|);
    ClassesAreRelevant(t, |t|);
    var tags, others := TokenTags(s), TokenTags(t);
    if RenderedAll(tags) == RenderedAll(others) {
      assert |tags| == |RenderedAll(tags)| == |others|;
      forall i | 0 <= i < |tags| ensures tags[i] == others[i] {
        assert RenderedAll(tags)[i] == RenderedAll(others)[i];
        RenderedInjective(tags[i], others[i]);
      }
      assert tags == others;
      EqualShapesAreRenamings(cs, ds);
    }
    if AlphaEquivalent(cs, ds) { RenamingKeepsShape(cs, ds); }
  }

  lemma OneTokenClasses()
    ensures Classes(["NUM"], 1) == [Kept("NUM")] && Classes(["1"], 1) == [NumLiteral]
  {
    hide KEYWORDS;
    assert Classify(["NUM"], 0) == Kept("NUM") && Classify(["1"], 0) == NumLiteral;
    assert Classes(["NUM"], 0) == [] && Classes(["1"], 0) == [];
  }

  // Without that condition rendering confuses a type called `NUM` with a number.
  lemma RenderingCanConfuse()
    ensures RenderedAll(TokenTags(["NUM"])) == RenderedAll(TokenTags(["1"]))
    ensures !AlphaEquivalent(Classes(["NUM"], 1), Classes(["1"], 1))
  {
    hide Classes, AlphaEquivalent, KEYWORDS;
    OneTokenClasses();
    assert TagsOf([Kept("NUM")]) == [Keep("NUM")] && TagsOf([NumLiteral]) == [NUM];
    assert RenderedAll([Keep("NUM")]) == ["NUM"] == RenderedAll([NUM]);
    KeptIsNoLiteral();
  }

  lemma KeptIsNoLiteral()
    ensures !AlphaEquivalent([Kept("NUM")], [NumLiteral])
  {
    var cs, ds := [Kept("NUM")], [NumLiteral];
    assert forall ren :: RenamedBy(cs, ds, ren) ==> Renamed(cs[0], ds[0], ren);
  }
}

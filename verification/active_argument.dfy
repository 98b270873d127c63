// Which argument of a call the cursor is in, counted from the text between the
// called name and the cursor.

module ActiveArguments {
  import opened CodeText
  import opened QueryModel

  function Turn(c: char): int {
    if c == '(' || c == '[' || c == '{' then 1 else if c == ')' || c == ']' || c == '}' then -1 else 0
  }

  // How far brackets are open after a text.
  function Depth(s: string): int {
    if s == "" then 0 else Depth(s[..|s| - 1]) + Turn(s[|s| - 1])
  }

  // Commas met one bracket deep, when the text starts `from` deep.
  function Commas(s: string, from: int): nat {
    if s == "" then 0
    else
      var init := s[..|s| - 1];
      Commas(init, from) + (if s[|s| - 1] == ',' && from + Depth(init) == 1 then 1 else 0)
  }

  function ActiveArgument(between: string): Option<nat> {
    if '(' !in between then None else Some(Commas(between, 0))
  }

  method CountArguments(between: string) returns (r: Option<nat>)
    ensures r == ActiveArgument(between)
  {
    if '(' !in between { return None; }
    var depth, commas := 0, 0;
    for i := 0 to |between|
      invariant depth == Depth(between[..i]) && commas == Commas(between[..i], 0)
    {
      assert between[..i + 1][..i] == between[..i];
      var c := between[i];
      if c == '(' || c == '[' || c == '{' {
        depth := depth + 1;
      } else if c == ')' || c == ']' || c == '}' {
        depth := depth - 1;
      } else if c == ',' && depth == 1 {
        commas := commas + 1;
      }
    }
    assert between[..|between|] == between;
    r := Some(commas);
  }

  lemma {:induction false} ScanAppends(s: string, t: string, from: int)
    ensures Depth(s + t) == Depth(s) + Depth(t)
    ensures Commas(s + t, from) == Commas(s, from) + Commas(t, from + Depth(s))
    decreases |t|
  {
    if t == "" {
      assert s + t == s;
    } else {
      assert (s + t)[..|s + t| - 1] == s + t[..|t| - 1];
      ScanAppends(s, t[..|t| - 1], from);
    }
  }

  lemma Marks(from: int)
    ensures Depth("(") == 1 && Commas("(", from) == 0
    ensures Depth(")") == -1 && Commas(")", from) == 0
    ensures Depth(",") == 0 && Commas(",", 1) == 1
  {
    assert "("[..0] == "" && ")"[..0] == "" && ","[..0] == "";
  }

  lemma NothingCounts(from: int)
    ensures Depth("") == 0 && Commas("", from) == 0
  {}

  // ---- Arguments ----

  // No prefix closes more brackets than it opened.
  predicate NeverCloses(s: string) { forall n :: 0 <= n <= |s| ==> Depth(s[..n]) >= 0 }

  // An argument as far as it is written: it has not closed the list it stands in,
  // and has no comma of its own at the level of that list.
  predicate Written(arg: string) { NeverCloses(arg) && Commas(arg, 1) == 0 }

  // One that is complete also closes every bracket it opens.
  predicate Complete(arg: string) { Written(arg) && Depth(arg) == 0 }

  predicate Pair(open: char, close: char) {
    (open == '(' && close == ')') || (open == '[' && close == ']') || (open == '{' && close == '}')
  }

  // A call, list or block is a complete argument whatever commas it holds.
  lemma NestedIsComplete(open: char, close: char, inner: string)
    requires Pair(open, close) && NeverCloses(inner) && Depth(inner) == 0
    ensures Complete([open] + inner + [close])
  {
    hide Depth, Commas;
    var s := [open] + inner + [close];
    OneTurn(open, 1);
    OneTurn(close, 2);
    ScanAppends([open], inner, 1);
    ScanAppends([open] + inner, [close], 1);
    CommasBelow(inner, 2);
    forall n | 0 <= n <= |s| ensures Depth(s[..n]) >= 0 {
      if n == 0 {
        NothingCounts(0);
        assert s[..0] == "";
      } else if n <= |inner| + 1 {
        assert s[..n] == [open] + inner[..n - 1];
        ScanAppends([open], inner[..n - 1], 1);
      } else {
        assert s[..n] == s;
      }
    }
  }

  lemma OneTurn(c: char, from: int)
    ensures Depth([c]) == Turn(c) && (Turn(c) != 0 ==> Commas([c], from) == 0)
  {
    assert [c][..0] == "";
  }

  // Nothing that stays two brackets deep is counted.
  lemma {:induction false} CommasBelow(s: string, from: int)
    requires NeverCloses(s) && from >= 2
    ensures Commas(s, from) == 0
  {
    if s != "" {
      var init := s[..|s| - 1];
      NeverClosesInit(s);
      CommasBelow(init, from);
      assert init[..|init|] == init;
    }
  }

  // Complete arguments, each followed by its comma.
  function Listed(args: seq<string>): string {
    if args == [] then "" else Listed(args[..|args| - 1]) + args[|args| - 1] + ","
  }

  lemma {:induction false} ListedCounts(args: seq<string>)
    requires forall i :: 0 <= i < |args| ==> Complete(args[i])
    ensures Depth(Listed(args)) == 0 && Commas(Listed(args), 1) == |args|
  {
    hide Depth, Commas, NeverCloses;
    if args == [] {
      NothingCounts(1);
    } else {
      var init, last := args[..|args| - 1], args[|args| - 1];
      assert Complete(last);
      ListedCounts(init);
      ScanAppends(Listed(init), last, 1);
      ScanAppends(Listed(init) + last, ",", 1);
      Marks(1);
    }
  }

  lemma NeverClosesJoins(s: string, t: string)
    requires NeverCloses(s) && NeverCloses(t)
    ensures NeverCloses(s + t)
  {
    hide Depth;
    forall n | 0 <= n <= |s + t| ensures Depth((s + t)[..n]) >= 0 {
      if n <= |s| {
        assert (s + t)[..n] == s[..n];
      } else {
        assert (s + t)[..n] == s + t[..n - |s|];
        assert s[..|s|] == s;
        ScanAppends(s, t[..n - |s|], 0);
      }
    }
  }

  lemma {:induction false} ListedNeverCloses(args: seq<string>)
    requires forall i :: 0 <= i < |args| ==> Complete(args[i])
    ensures NeverCloses(Listed(args))
  {
    hide Depth, Commas;
    if args == [] {
      NothingCounts(1);
      assert ""[..0] == "";
    } else {
      var init, last := args[..|args| - 1], args[|args| - 1];
      assert Complete(last);
      ListedNeverCloses(init);
      NeverClosesJoins(Listed(init), last);
      CommaNeverCloses();
      NeverClosesJoins(Listed(init) + last, ",");
    }
  }

  lemma CommaNeverCloses()
    ensures NeverCloses(",")
  {
    assert ","[..0] == "" && ","[..1] == ",";
  }

  // ---- Between the called name and its list ----

  predicate Blank(s: string) { forall i :: 0 <= i < |s| ==> s[i] == ' ' || s[i] == '\n' }

  // One pair of square brackets and what it encloses.
  predicate Enclosed(s: string) {
    && |s| >= 2 && s[0] == '[' && s[|s| - 1] == ']'
    && NeverCloses(s[1..|s| - 1]) && Depth(s[1..|s| - 1]) == 0
  }

  predicate TypedHeader(s: string, a: string, b: string, types: string, c: string) {
    Blank(a) && Blank(b) && Blank(c) && Enclosed(types) && s == a + "::" + b + types + c
  }

  // Nothing but blanks stands there, or explicit type arguments.
  ghost predicate Header(s: string) {
    Blank(s) || exists a, b, types, c :: TypedHeader(s, a, b, types, c)
  }

  // Brackets are balanced, and parentheses stand only inside others.
  predicate Balanced(s: string) {
    && Depth(s) == 0
    && forall i :: 0 <= i < |s| ==> Depth(s[..i]) >= (if s[i] == '(' then 1 else 0)
  }

  predicate Flat(s: string) { forall i :: 0 <= i < |s| ==> Turn(s[i]) == 0 }

  lemma {:induction false} FlatIsBalanced(s: string)
    requires Flat(s)
    ensures Balanced(s)
  {
    if s != "" {
      var init := s[..|s| - 1];
      assert forall i :: 0 <= i < |init| ==> init[i] == s[i];
      FlatIsBalanced(init);
      forall i | 0 <= i < |s| ensures Depth(s[..i]) == 0 {
        FlatHasNoDepth(s[..i]);
      }
    }
  }

  lemma {:induction false} FlatHasNoDepth(s: string)
    requires Flat(s)
    ensures Depth(s) == 0
  {
    if s != "" {
      var init := s[..|s| - 1];
      assert forall i :: 0 <= i < |init| ==> init[i] == s[i];
      FlatHasNoDepth(init);
    }
  }

  lemma BalancedJoins(s: string, t: string)
    requires Balanced(s) && Balanced(t)
    ensures Balanced(s + t)
  {
    hide Depth;
    ScanAppends(s, t, 0);
    forall i | 0 <= i < |s + t| ensures Depth((s + t)[..i]) >= (if (s + t)[i] == '(' then 1 else 0) {
      if i < |s| {
        assert (s + t)[..i] == s[..i];
      } else {
        assert (s + t)[..i] == s + t[..i - |s|];
        ScanAppends(s, t[..i - |s|], 0);
      }
    }
  }

  lemma BracketTurns(from: int)
    ensures Depth("[") == 1 && Depth("]") == -1
  {
    assert "["[..0] == "" && "]"[..0] == "";
  }

  lemma EnclosedIsBalanced(s: string)
    requires Enclosed(s)
    ensures Balanced(s)
  {
    hide Depth;
    var inside := s[1..|s| - 1];
    BracketTurns(0);
    NothingCounts(0);
    assert s == "[" + inside + "]";
    ScanAppends("[", inside, 0);
    ScanAppends("[" + inside, "]", 0);
    forall i | 0 <= i < |s| ensures Depth(s[..i]) >= (if s[i] == '(' then 1 else 0) {
      if i == 0 {
        assert s[..0] == "";
      } else {
        assert s[..i] == "[" + inside[..i - 1];
        ScanAppends("[", inside[..i - 1], 0);
      }
    }
  }

  lemma HeaderIsBalanced(s: string)
    requires Header(s)
    ensures Balanced(s)
  {
    hide Balanced, Depth, Enclosed;
    if Blank(s) {
      FlatIsBalanced(s);
    } else {
      var a, b, types, c :| TypedHeader(s, a, b, types, c);
      FlatIsBalanced(a);
      FlatIsBalanced("::");
      FlatIsBalanced(b);
      FlatIsBalanced(c);
      EnclosedIsBalanced(types);
      BalancedJoins(a, "::");
      BalancedJoins(a + "::", b);
      BalancedJoins(a + "::" + b, types);
      BalancedJoins(a + "::" + b + types, c);
    }
  }

  // Blanks, newlines and what a comment leaves may stand on either side of the name's
  // type arguments, or none at all.
  lemma CallsAreRecognized(front: string, types: string, back: string)
    requires (forall i :: 0 <= i < |front| ==> front[i] in " \n") && (forall i :: 0 <= i < |back| ==> back[i] in " \n")
    requires NeverCloses(types) && Depth(types) == 0
    ensures Header(front) && Header(front + "::[" + types + "]" + back)
  {
    hide NeverCloses, Depth;
    InBlank(front);
    InBlank(back);
    var group := "[" + types + "]";
    assert group[1..|group| - 1] == types;
    assert "::" + "[" == "::[";
    assert front + "::[" + types + "]" + back == front + "::" + "" + group + back;
    assert TypedHeader(front + "::[" + types + "]" + back, front, "", group, back);
  }

  lemma InBlank(s: string)
    requires forall i :: 0 <= i < |s| ==> s[i] in " \n"
    ensures Blank(s)
  {}

  // ---- Inside the argument list ----

  // The text opens the call's list, holds these arguments and stands in the next.
  ghost predicate Splits(between: string, before: string, args: seq<string>, next: string) {
    && Header(before) && (forall i :: 0 <= i < |args| ==> Complete(args[i])) && Written(next)
    && between == before + "(" + Listed(args) + next
  }

  // The cursor is in the argument list, after `n` complete arguments.
  ghost predicate InArgument(between: string, n: nat) {
    exists before, args, next :: |args| == n && Splits(between, before, args, next)
  }

  // The list that opens at `p` is still open at every point after it.
  ghost predicate OpenFrom(between: string, p: nat) {
    && p < |between| && between[p] == '(' && Header(between[..p])
    && forall n :: p < n <= |between| ==> Depth(between[..n]) > 0
  }

  ghost predicate ListOpen(between: string) { exists p :: 0 <= p < |between| && OpenFrom(between, p) }

  // What is documented, of the code up to the cursor: the index of the argument the
  // cursor is in, and null where it is in none.
  ghost predicate Documented(code: string, answer: Option<nat>) {
    match answer
    case None => !ListOpen(code)
    case Some(n) => InArgument(code, n)
  }

  lemma CallCounts(before: string, list: string, next: string)
    requires Depth(before) == 0 && Depth(list) == 0
    ensures Commas(before + "(" + list + next, 0) == Commas(before, 0) + Commas(list, 1) + Commas(next, 1)
    ensures Depth(before + "(" + list + next) == 1 + Depth(next)
    ensures '(' in before + "(" + list + next
  {
    hide Depth, Commas;
    assert (before + "(" + list + next)[|before|] == '(';
    Marks(0);
    ScanAppends(before, "(", 0);
    ScanAppends(before + "(", list, 0);
    ScanAppends(before + "(" + list, next, 0);
  }

  // After n complete arguments, however they nest calls, lists and blocks, and
  // however far the next one is written, the answer is n and the commas between
  // explicit type arguments.
  lemma CountsCompleteArguments(before: string, args: seq<string>, next: string)
    requires Header(before) && (forall i :: 0 <= i < |args| ==> Complete(args[i])) && Written(next)
    ensures ActiveArgument(before + "(" + Listed(args) + next) == Some(Commas(before, 0) + |args|)
  {
    hide Depth, Commas, NeverCloses, Header, Complete, Listed;
    ListedCounts(args);
    HeaderIsBalanced(before);
    CallCounts(before, Listed(args), next);
  }

  lemma NeverClosesInit(s: string)
    requires NeverCloses(s) && s != ""
    ensures NeverCloses(s[..|s| - 1]) && Depth(s) >= 0
  {
    hide Depth;
    var init := s[..|s| - 1];
    assert s[..|s|] == s;
    forall n | 0 <= n <= |init| ensures Depth(init[..n]) >= 0 {
      assert init[..n] == s[..n];
    }
  }

  // Every open text is some complete arguments and the next one as far as written.
  lemma {:induction false} OpenSplits(s: string) returns (args: seq<string>, next: string)
    requires NeverCloses(s)
    ensures (forall i :: 0 <= i < |args| ==> Complete(args[i])) && Written(next)
    ensures s == Listed(args) + next
    decreases |s|
  {
    hide Depth, Commas, NeverCloses;
    NothingCounts(1);
    if s == "" {
      args, next := [], "";
      NothingIsWritten();
    } else {
      var init, c := s[..|s| - 1], s[|s| - 1];
      NeverClosesInit(s);
      args, next := OpenSplits(init);
      assert s == init + [c];
      ListedCounts(args);
      ScanAppends(Listed(args), next, 1);
      if c == ',' && Depth(next) == 0 {
        assert s == Listed(args) + next + ",";
        args, next := args + [next], "";
        assert args[..|args| - 1] + [args[|args| - 1]] == args;
        NothingIsWritten();
      } else {
        NextGoesOn(args, next, c, s);
        next := next + [c];
      }
    }
  }

  lemma NothingIsWritten()
    ensures Written("")
  {
    assert ""[..0] == "";
  }

  lemma NextGoesOn(args: seq<string>, next: string, c: char, s: string)
    requires NeverCloses(s) && s == Listed(args) + next + [c] && Depth(Listed(args)) == 0
    requires Written(next) && !(c == ',' && Depth(next) == 0)
    ensures Written(next + [c]) && s == Listed(args) + (next + [c])
  {
    var more := next + [c];
    assert more[..|more| - 1] == next;
    assert s == Listed(args) + more;
    forall n | 0 <= n <= |more| ensures Depth(more[..n]) >= 0 {
      assert s[..|Listed(args)| + n] == Listed(args) + more[..n];
      ScanAppends(Listed(args), more[..n], 0);
    }
  }

  lemma Within(s: string, p: nat, q: nat)
    ensures p < q <= |s| ==> s[..q][..p] == s[..p] && s[..q][p] == s[p]
  {}

  // Only one parenthesis can open the list.
  lemma NoneBefore(between: string, p: nat, q: nat)
    requires OpenFrom(between, p) && OpenFrom(between, q)
    ensures q <= p
  {
    hide Depth, Header;
    HeaderIsBalanced(between[..p]);
    HeaderIsBalanced(between[..q]);
    Within(between, p, q);
  }

  lemma OneOpens(between: string, p: nat, q: nat)
    requires OpenFrom(between, p) && OpenFrom(between, q)
    ensures p == q
  {
    hide OpenFrom;
    NoneBefore(between, p, q);
    NoneBefore(between, q, p);
  }

  // The list is open exactly where the text splits...
  lemma OpenIsInArgument(between: string)
    ensures ListOpen(between) <==> exists n: nat :: InArgument(between, n)
  {
    hide Depth, Commas, NeverCloses, Header, OpenFrom;
    if ListOpen(between) {
      var p :| 0 <= p < |between| && OpenFrom(between, p);
      var rest := between[p + 1..];
      RestNeverCloses(between, p);
      var args, next := OpenSplits(rest);
      OpensAt(between, p);
      assert between == between[..p] + "(" + Listed(args) + next;
      assert Splits(between, between[..p], args, next);
      assert InArgument(between, |args|);
    }
    forall n: nat | InArgument(between, n) ensures ListOpen(between) {
      var before, args, next :| |args| == n && Splits(between, before, args, next);
      SplitIsOpen(between, before, args, next);
      assert |before| < |between|;
    }
  }

  // ...and the number of complete arguments is that of the commas counted behind its
  // parenthesis.
  lemma ArgumentsAreCounted(between: string, n: nat, p: nat)
    requires InArgument(between, n) && OpenFrom(between, p)
    ensures Commas(between, 0) == Commas(between[..p], 0) + n
  {
    hide Depth, Commas, NeverCloses, Header, OpenFrom;
    var before, args, next :| |args| == n && Splits(between, before, args, next);
    SplitIsOpen(between, before, args, next);
    OneOpens(between, p, |before|);
    assert between[..|before|] == before;
    HeaderIsBalanced(before);
    ListedCounts(args);
    CallCounts(before, Listed(args), next);
  }

  lemma OpensAt(between: string, p: nat)
    requires OpenFrom(between, p)
    ensures p < |between| && between == between[..p] + "(" + between[p + 1..] && Header(between[..p])
  {}

  lemma RestNeverCloses(between: string, p: nat)
    requires OpenFrom(between, p)
    ensures p < |between| && NeverCloses(between[p + 1..])
  {
    hide Depth, Commas, Header;
    var before, rest := between[..p], between[p + 1..];
    HeaderIsBalanced(before);
    Marks(0);
    forall n | 0 <= n <= |rest| ensures Depth(rest[..n]) >= 0 {
      assert between[..p + 1 + n] == before + "(" + rest[..n];
      ScanAppends(before, "(", 0);
      ScanAppends(before + "(", rest[..n], 0);
    }
  }

  lemma SplitIsOpen(between: string, before: string, args: seq<string>, next: string)
    requires Splits(between, before, args, next)
    ensures OpenFrom(between, |before|)
  {
    hide Depth, Commas, Header;
    var rest := Listed(args) + next;
    assert between == before + "(" + rest;
    assert between[..|before|] == before;
    ListedNeverCloses(args);
    NeverClosesJoins(Listed(args), next);
    HeaderIsBalanced(before);
    Marks(0);
    forall n | |before| < n <= |between| ensures Depth(between[..n]) > 0 {
      var k := n - |before| - 1;
      assert between[..n] == before + "(" + rest[..k];
      ScanAppends(before, "(", 0);
      ScanAppends(before + "(", rest[..k], 0);
    }
  }

  // ---- Commas counted and commas that separate ----

  predicate Counts(s: string, i: nat)
    requires i < |s|
  {
    s[i] == ',' && Depth(s[..i]) == 1
  }

  function Counted(s: string): set<nat> { set i: nat | i < |s| && Counts(s, i) }

  lemma {:induction false} CommasAreCounted(s: string)
    ensures |Counted(s)| == Commas(s, 0)
  {
    hide Depth;
    if s == "" {
      assert Counted(s) == {};
    } else {
      var init, n := s[..|s| - 1], |s| - 1;
      CommasAreCounted(init);
      forall i: nat | i < n ensures Counts(s, i) <==> Counts(init, i) {
        assert s[..i] == init[..i];
      }
      assert Counted(s) == if Counts(s, n) then Counted(init) + {n} else Counted(init);
    }
  }

  // The commas at the level of the open list: they separate its arguments.
  ghost function Separators(code: string): set<nat> {
    set i: nat | i < |code| && Separates(code, i)
  }

  ghost predicate Separates(code: string, i: nat)
    requires i < |code|
  {
    Counts(code, i) && exists p: nat :: p < i && OpenFrom(code, p)
  }

  lemma SeparatesBehind(code: string, p: nat, i: nat)
    requires OpenFrom(code, p) && i < |code|
    ensures Separates(code, i) <==> Counts(code, i) && i > p
  {
    hide Depth, OpenFrom, Counts;
    forall q: nat | OpenFrom(code, q) ensures q == p { OneOpens(code, p, q); }
  }

  lemma CountsInFront(code: string, p: nat, i: nat)
    requires i < p <= |code|
    ensures Counts(code, i) <==> Counts(code[..p], i)
  {
    assert code[..i] == code[..p][..i];
  }

  lemma SeparatorsAre(code: string, p: nat)
    requires OpenFrom(code, p)
    ensures Counted(code) == Counted(code[..p]) + Separators(code) && Counted(code[..p]) !! Separators(code)
    ensures |Separators(code)| == Commas(code, 0) - Commas(code[..p], 0)
  {
    hide Depth, Commas, OpenFrom, Separates;
    OpensAt(code, p);
    var front := code[..p];
    assert code[p] == '(' by { ParenthesisIs(code, p); }
    assert !Counts(code, p);
    forall i: nat | i < |code| ensures Separates(code, i) <==> Counts(code, i) && i > p {
      SeparatesBehind(code, p, i);
    }
    forall i: nat | i < p ensures Counts(code, i) <==> Counts(front, i) { CountsInFront(code, p, i); }
    hide Counts;
    assert Counted(code) == Counted(front) + Separators(code);
    CommasAreCounted(code);
    CommasAreCounted(front);
  }

  lemma ParenthesisIs(code: string, p: nat)
    requires OpenFrom(code, p)
    ensures p < |code| && code[p] == '('
  {}

  lemma {:induction false} SeparatorsNumberArguments(code: string, n: nat)
    requires ListOpen(code)
    ensures InArgument(code, n) <==> |Separators(code)| == n
  {
    hide Depth, Commas, OpenFrom, InArgument, Separators;
    var p: nat :| p < |code| && OpenFrom(code, p);
    SeparatorsAre(code, p);
    OpenIsInArgument(code);
    var m: nat :| InArgument(code, m);
    ArgumentsAreCounted(code, m, p);
    if InArgument(code, n) { ArgumentsAreCounted(code, n, p); }
  }

  // ---- The answer ----

  // Commas that are counted and separate no two arguments: between type arguments, in
  // literals and comments, or brought to depth one by brackets in such text...
  ghost function Spurious(between: string, code: string): set<nat> { Counted(between) - Separators(code) }

  // ...and commas that separate and are not counted, which takes brackets in such text.
  ghost function Missed(between: string, code: string): set<nat> { Separators(code) - Counted(between) }

  lemma DifferenceCounts(a: set<nat>, b: set<nat>)
    ensures |a| == |b| <==> |a - b| == |b - a|
  {
    assert a == (a - b) + (a * b) && b == (b - a) + (a * b);
  }

  // A parenthesis of the code is one of the text.
  lemma CodeOpensInText(between: string, code: string)
    requires IsCodeOf(code, between) && ListOpen(code)
    ensures '(' in between
  {
    hide Depth, Header;
    var p: nat :| p < |code| && OpenFrom(code, p);
    assert between[p] == '(';
  }

  // The text with some characters blanked out.
  predicate IsCodeOf(code: string, between: string) {
    |code| == |between| &&
    forall i :: 0 <= i < |code| ==> code[i] == between[i] || code[i] == BLANK || code[i] == LITERAL
  }

  lemma CodeIsBlanked(after: string, to: nat)
    requires to <= |after|
    ensures IsCodeOf(Code(after)[..to], after[..to])
  {
    hide Code;
  }

  // For every text behind a called name and every cursor in it, the answer is the
  // documented one exactly when no parenthesis stands before the cursor, or the list is
  // open and as many commas are counted that separate nothing as separators are missed.
  lemma DocumentedExactly(after: string, to: nat)
    requires to <= |after|
    ensures var between, code := after[..to], Code(after)[..to];
      Documented(code, ActiveArgument(between)) <==> (
        '(' !in between || (ListOpen(code) && |Spurious(between, code)| == |Missed(between, code)|))
  {
    hide Code, Depth, Commas, ListOpen, InArgument, Separators, Counted;
    var between, code := after[..to], Code(after)[..to];
    if ListOpen(code) {
      CodeIsBlanked(after, to);
      CodeOpensInText(between, code);
      CommasAreCounted(between);
      SeparatorsNumberArguments(code, Commas(between, 0));
      DifferenceCounts(Counted(between), Separators(code));
    } else {
      OpenIsInArgument(code);
    }
  }

  // No bracket stands in a literal or comment before the cursor.
  predicate NoTextBrackets(between: string, code: string)
    requires |code| == |between|
  {
    forall i :: 0 <= i < |code| && code[i] != between[i] ==> Turn(between[i]) == 0
  }

  predicate NoTextCommas(between: string, code: string)
    requires |code| == |between|
  {
    forall i :: 0 <= i < |code| && code[i] != between[i] ==> between[i] != ','
  }

  lemma {:induction false} SameDepth(between: string, code: string, n: nat)
    requires IsCodeOf(code, between) && NoTextBrackets(between, code) && n <= |code|
    ensures Depth(code[..n]) == Depth(between[..n])
  {
    if n > 0 {
      SameDepth(between, code, n - 1);
      assert code[..n][..n - 1] == code[..n - 1] && between[..n][..n - 1] == between[..n - 1];
    }
  }

  lemma SameCounts(between: string, code: string)
    requires IsCodeOf(code, between) && NoTextBrackets(between, code)
    ensures Counted(code) <= Counted(between)
    ensures NoTextCommas(between, code) ==> Counted(code) == Counted(between)
  {
    hide Depth;
    forall i: nat | i < |code| ensures Counts(code, i) <==> Counts(between, i) && code[i] == ',' {
      SameDepth(between, code, i);
    }
  }

  // Where literals and comments hold no brackets, the answer is the documented one
  // exactly when no parenthesis stands before the cursor, or the list is open and every
  // comma counted separates two of its arguments.
  lemma DocumentedWithoutTextBrackets(after: string, to: nat)
    requires to <= |after| && NoTextBrackets(after[..to], Code(after)[..to])
    ensures var between, code := after[..to], Code(after)[..to];
      Documented(code, ActiveArgument(between)) <==> (
        '(' !in between || (ListOpen(code) && Counted(between) == Separators(code)))
  {
    hide Code, Depth, Commas, ListOpen, InArgument, Documented, ActiveArgument, OpenFrom, Counted;
    var between, code := after[..to], Code(after)[..to];
    DocumentedExactly(after, to);
    CodeIsBlanked(after, to);
    SameCounts(between, code);
    SeparatorsAreCounted(code);
    assert Missed(between, code) == {};
    assert |Spurious(between, code)| == 0 <==> Spurious(between, code) == {};
  }

  lemma SeparatorsAreCounted(code: string)
    ensures Separators(code) <= Counted(code)
  {}

  // The list opens at `p` and is still open, and no comma before it is one bracket deep:
  // there are no two explicit type arguments.
  ghost predicate OpensClean(code: string, p: nat) { OpenFrom(code, p) && Counted(code[..p]) == {} }

  lemma CleanExactly(code: string, p: nat)
    requires OpenFrom(code, p)
    ensures OpensClean(code, p) <==> Counted(code) == Separators(code)
  {
    hide Depth, Commas, OpenFrom, Counted, Separators;
    SeparatorsAre(code, p);
  }

  // Where they hold no commas either: exactly when, besides, there are no two explicit
  // type arguments.
  lemma DocumentedInPlainCode(after: string, to: nat)
    requires to <= |after|
    requires NoTextBrackets(after[..to], Code(after)[..to]) && NoTextCommas(after[..to], Code(after)[..to])
    ensures var between, code := after[..to], Code(after)[..to];
      Documented(code, ActiveArgument(between)) <==> ('(' !in between || exists p: nat :: OpensClean(code, p))
  {
    hide Code, Depth, Commas, InArgument, Documented, ActiveArgument, OpenFrom, Counted, Separators;
    var between, code := after[..to], Code(after)[..to];
    DocumentedWithoutTextBrackets(after, to);
    CodeIsBlanked(after, to);
    SameCounts(between, code);
    forall p: nat | OpenFrom(code, p)
      ensures ListOpen(code) && (OpensClean(code, p) <==> Counted(code) == Separators(code))
    {
      ParenthesisIs(code, p);
      CleanExactly(code, p);
    }
  }

  // ---- Calls that are miscounted ----

  predicate Unmarked(s: string) { Flat(s) && ',' !in s }

  lemma {:induction false} UnmarkedCounts(s: string, from: int)
    requires Unmarked(s)
    ensures Depth(s) == 0 && Commas(s, from) == 0
  {
    if s != "" {
      var init := s[..|s| - 1];
      assert forall i :: 0 <= i < |init| ==> init[i] == s[i];
      UnmarkedCounts(init, from);
    }
  }

  lemma UnmarkedIsComplete(s: string)
    requires Unmarked(s)
    ensures Complete(s)
  {
    UnmarkedCounts(s, 1);
    forall n | 0 <= n <= |s| ensures Depth(s[..n]) >= 0 {
      FlatHasNoDepth(s[..n]);
    }
  }

  // Explicit type arguments are counted like arguments: with one the index is right,
  // with more it is too great by as many.
  lemma TypeArgumentsAreCounted(types: seq<string>, next: string)
    requires types != [] && (forall i :: 0 <= i < |types| ==> Unmarked(types[i])) && Written(next)
    ensures var init, last := types[..|types| - 1], types[|types| - 1];
      var call := "::[" + Listed(init) + last + "](" + next;
      && InArgument(call, 0) && ActiveArgument(call) == Some(|types| - 1)
      && ('"' !in call && '\'' !in call && '/' !in call ==> Code(call) == call)
  {
    hide Depth, Commas, NeverCloses, Complete, Unmarked, Listed, Code, Header, ActiveArgument;
    var init, last := types[..|types| - 1], types[|types| - 1];
    var inside := Listed(init) + last;
    forall i | 0 <= i < |types| ensures Complete(types[i]) { UnmarkedIsComplete(types[i]); }
    TypesCount(init, last);
    var before, call := "::[" + inside + "]", "::[" + Listed(init) + last + "](" + next;
    TypesAreHeader(inside);
    HeaderCounts(inside);
    CountsCompleteArguments(before, [], next);
    NothingListed();
    Regrouped(Listed(init), last, next);
    assert Splits(call, before, [], next);
    if '"' !in call && '\'' !in call && '/' !in call { AllIsCode(call); }
  }

  lemma TypesAreHeader(inside: string)
    requires NeverCloses(inside) && Depth(inside) == 0
    ensures Header("::[" + inside + "]")
  {
    hide Depth, NeverCloses;
    var types, s := "[" + inside + "]", "::[" + inside + "]";
    assert types[1..|types| - 1] == inside;
    assert s == "" + "::" + "" + types + "";
    assert TypedHeader(s, "", "", types, "");
  }

  lemma Regrouped(a: string, b: string, next: string)
    ensures "::[" + (a + b) + "]" + "(" + "" + next == "::[" + a + b + "](" + next
  {
    assert "]" + "(" == "](";
  }

  lemma NothingListed()
    ensures Listed([]) == ""
  {}

  lemma TypesCount(init: seq<string>, last: string)
    requires (forall i :: 0 <= i < |init| ==> Complete(init[i])) && Complete(last)
    ensures Depth(Listed(init) + last) == 0 && NeverCloses(Listed(init) + last)
    ensures Commas(Listed(init) + last, 1) == |init|
  {
    hide Depth, Commas, NeverCloses, Listed;
    ListedCounts(init);
    ListedNeverCloses(init);
    NeverClosesJoins(Listed(init), last);
    ScanAppends(Listed(init), last, 1);
  }

  lemma HeaderCounts(inside: string)
    requires Depth(inside) == 0
    ensures Commas("::[" + inside + "]", 0) == Commas(inside, 1)
  {
    hide Depth, Commas;
    BracketTurns(0);
    UnmarkedCounts("::", 0);
    assert "::" + "[" == "::[";
    ScanAppends("::", "[", 0);
    ScanAppends("::[", inside, 0);
    ScanAppends("::[" + inside, "]", 0);
    OneMark('[', 0);
    OneMark(']', 1);
  }

  lemma OneMark(c: char, from: int)
    ensures Commas([c], from) == if c == ',' && from == 1 then 1 else 0
    ensures Depth([c]) == Turn(c)
  {
    assert [c][..0] == "";
  }

  // A string literal is read like code. Of a call whose first argument is one, the
  // commas in it are counted, and the comma behind it only if its brackets balance:
  // `("a,b",` answers 2 and `(")",` answers 0, where the cursor is in argument 1.
  lemma LiteralsAreCounted(body: string)
    requires PlainBody(body)
    ensures var call := "(\"" + body + "\",";
      && InArgument(Code(call), 1)
      && ActiveArgument(call) == Some(Commas(body, 1) + if Depth(body) == 0 then 1 else 0)
  {
    hide Depth, Commas, NeverCloses, Complete, Code, Header;
    var call, blanks := "(\"" + body + "\",", Blanks(|body| + 2);
    LiteralIsBlanked(body);
    UnmarkedIsComplete(blanks);
    NothingIsWritten();
    EmptyIsHeader();
    assert [blanks][..0] == [];
    assert Listed([blanks]) == blanks + ",";
    assert Splits(Code(call), "", [blanks], "");
    LiteralCounts(body);
    assert call[0] == '(';
  }

  lemma EmptyIsHeader()
    ensures Header("")
  {}

  lemma LiteralCounts(body: string)
    ensures Commas("(\"" + body + "\",", 0) == Commas(body, 1) + if Depth(body) == 0 then 1 else 0
  {
    hide Depth, Commas;
    Marks(0);
    UnmarkedCounts("\"", 1);
    UnmarkedCounts("\"", 1 + Depth(body));
    OneMark(',', 1 + Depth(body));
    assert "(" + "\"" == "(\"" && "\"" + "," == "\",";
    ScanAppends("(", "\"", 0);
    ScanAppends("(\"", body, 0);
    ScanAppends("\"", ",", 1 + Depth(body));
    ScanAppends("(\"" + body, "\",", 0);
  }

  // And so `("a,b",` and `(")",`.
  lemma LiteralsMiscount()
    ensures InArgument(Code("(\"a,b\","), 1) && ActiveArgument("(\"a,b\",") == Some(2)
    ensures InArgument(Code("(\")\","), 1) && ActiveArgument("(\")\",") == Some(0)
  {
    hide Depth, Commas, Code, InArgument, ActiveArgument;
    OneMark('a', 1);
    OneMark('b', 1);
    OneMark(',', 1);
    OneMark(')', 1);
    assert "a" + "," + "b" == "a,b" && "a" + "," == "a,";
    ScanAppends("a", ",", 1);
    ScanAppends("a,", "b", 1);
    assert "(\"" + "a,b" + "\"," == "(\"a,b\"," && "(\"" + ")" + "\"," == "(\")\",";
    LiteralsAreCounted("a,b");
    LiteralsAreCounted(")");
  }

  // So past the closing bracket the index of the last argument is still reported.
  lemma ClosedCallStillCounts(before: string, args: seq<string>, last: string)
    requires Header(before) && (forall i :: 0 <= i < |args| ==> Complete(args[i])) && Complete(last)
    ensures ActiveArgument(before + "(" + Listed(args) + (last + ")")) == Some(Commas(before, 0) + |args|)
    ensures !ListOpen(before + "(" + Listed(args) + (last + ")"))
  {
    hide Depth, Commas, Listed, NeverCloses, Complete, ActiveArgument, Header;
    CompleteSays(last);
    var text := before + "(" + Listed(args) + (last + ")");
    HeaderIsBalanced(before);
    ListedCounts(args);
    ScanAppends(last, ")", 1);
    Marks(1 + Depth(last));
    CallCounts(before, Listed(args), last + ")");
    AnswerIs(text);
    assert text[..|text|] == text;
    forall p | 0 <= p < |text| ensures !OpenFrom(text, p) {}
  }

  lemma CompleteSays(arg: string)
    requires Complete(arg)
    ensures Depth(arg) == 0 && Commas(arg, 1) == 0
  {}

  lemma AnswerIs(text: string)
    requires '(' in text
    ensures ActiveArgument(text) == Some(Commas(text, 0))
  {}
}

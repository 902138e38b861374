/**
 Flattening of a JSON header value into one header line: collapseSpace and toString.
 */
module Headers {
  import opened Basics

  /** unicode.IsSpace, which strings.Fields and strings.TrimSpace go by. */
  predicate IsSpace(c: char) {
    var n := c as int;
    9 <= n <= 13 || n == 0x20 || n == 0x85 || n == 0xA0 || n == 0x1680 || 0x2000 <= n <= 0x200a
    || n == 0x2028 || n == 0x2029 || n == 0x202f || n == 0x205f || n == 0x3000
  }

  /** The characters with Unicode's White_Space property, one by one. */
  lemma SpaceTable(c: char)
    ensures IsSpace(c) <==>
      c as int in {0x09, 0x0a, 0x0b, 0x0c, 0x0d, 0x20, 0x85, 0xa0, 0x1680, 0x2000, 0x2001, 0x2002, 0x2003, 0x2004,
                   0x2005, 0x2006, 0x2007, 0x2008, 0x2009, 0x200a, 0x2028, 0x2029, 0x202f, 0x205f, 0x3000}
  {
  }

  /** One more character: it ends a word, extends the last one, or starts a new one. */
  function AddChar(words: seq<string>, inWord: bool, c: char): seq<string> {
    if IsSpace(c) then words
    else if inWord && |words| > 0 then words[..|words| - 1] + [words[|words| - 1] + [c]]
    else words + [[c]]
  }

  /** The last character of s belongs to a word. */
  predicate EndsInWord(s: string) {
    s != "" && !IsSpace(s[|s| - 1])
  }

  /** strings.Fields: the maximal runs of non-space characters, in order. */
  function Fields(s: string): seq<string> {
    if s == "" then []
    else
      var n := |s| - 1;
      AddChar(Fields(s[..n]), EndsInWord(s[..n]), s[n])
  }

  /** strings.Join. */
  function Join(parts: seq<string>, sep: string): string {
    if parts == [] then ""
    else if |parts| == 1 then parts[0]
    else Join(parts[..|parts| - 1], sep) + sep + parts[|parts| - 1]
  }

  function CollapseSpace(s: string): string {
    Join(Fields(s), " ")
  }

  function TrimLeft(s: string): string {
    if s != "" && IsSpace(s[0]) then TrimLeft(s[1..]) else s
  }

  function TrimRight(s: string): string {
    if s != "" && IsSpace(s[|s| - 1]) then TrimRight(s[..|s| - 1]) else s
  }

  function TrimSpace(s: string): string {
    var t := TrimLeft(s);
    TrimRight(t)
  }

  /** A decoded header value: a string, an array, or anything else with the text it renders to. */
  datatype Value = Text(s: string) | Array(items: seq<Value>) | Other(rendered: string)

  function Clean(s: string): string {
    TrimSpace(CollapseSpace(s))
  }

  /** toString as a function: an array is its flattened elements joined by commas. */
  function Flatten(v: Value): string {
    match v
    case Text(s) => Clean(s)
    case Other(s) => Clean(s)
    case Array(items) => FlattenAll(items)
  }

  function FlattenAll(items: seq<Value>): string {
    if items == [] then ""
    else if |items| == 1 then Flatten(items[0])
    else FlattenAll(items[..|items| - 1]) + "," + Flatten(items[|items| - 1])
  }

  /** toString with its loop over a string builder. */
  method ToString(v: Value) returns (r: string)
    ensures r == Flatten(v)
    decreases v
  {
    match v
    case Text(s) => r := Clean(s);
    case Other(s) => r := Clean(s);
    case Array(items) =>
      r := "";
      var i := 0;
      while i < |items|
        invariant 0 <= i <= |items|
        invariant r == FlattenAll(items[..i])
      {
        if i > 0 {
          r := r + ",";
        }
        var t := ToString(items[i]);
        r := r + t;
        assert items[..i + 1][..i] == items[..i];
        i := i + 1;
      }
      assert items[..|items|] == items;
  }

  // ---------------------------------------------------------------- leaves

  /** The leaves of a value in order; an empty array counts as one empty leaf. */
  function Leaves(v: Value): seq<string>
    ensures |Leaves(v)| > 0
  {
    match v
    case Text(s) => [s]
    case Other(s) => [s]
    case Array(items) => if items == [] then [""] else LeavesOf(items)
  }

  function LeavesOf(items: seq<Value>): (r: seq<string>)
    ensures items != [] ==> |r| > 0
  {
    if items == [] then [] else LeavesOf(items[..|items| - 1]) + Leaves(items[|items| - 1])
  }

  function CleanAll(leaves: seq<string>): seq<string> {
    seq(|leaves|, i requires 0 <= i < |leaves| => Clean(leaves[i]))
  }

  lemma {:induction false} JoinConcat(a: seq<string>, b: seq<string>, sep: string)
    requires a != [] && b != []
    ensures Join(a + b, sep) == Join(a, sep) + sep + Join(b, sep)
    decreases |b|
  {
    var n := |b| - 1;
    assert (a + b)[..|a + b| - 1] == a + b[..n];
    if n == 0 {
      assert a + b[..0] == a;
    } else {
      JoinConcat(a, b[..n], sep);
    }
  }

  lemma CleanConcat(a: seq<string>, b: seq<string>)
    ensures CleanAll(a + b) == CleanAll(a) + CleanAll(b)
  {
  }

  /** Whatever the nesting, the result is the comma-join of the normalised leaves. */
  lemma {:induction false} FlattenJoinsLeaves(v: Value)
    ensures Flatten(v) == Join(CleanAll(Leaves(v)), ",")
    decreases v, 0
  {
    match v
    case Text(s) => assert CleanAll([s]) == [Clean(s)];
    case Other(s) => assert CleanAll([s]) == [Clean(s)];
    case Array(items) =>
      if items == [] {
        assert CleanAll([""]) == [Clean("")];
        assert Clean("") == "";
      } else {
        FlattenAllJoinsLeaves(items, v);
      }
  }

  lemma {:induction false} FlattenAllJoinsLeaves(items: seq<Value>, bound: Value)
    requires items != [] && forall x | x in items :: x < bound
    ensures FlattenAll(items) == Join(CleanAll(LeavesOf(items)), ",")
    decreases bound, 0, |items|
  {
    var n := |items| - 1;
    assert items[n] in items;
    FlattenJoinsLeaves(items[n]);
    CleanConcat(LeavesOf(items[..n]), Leaves(items[n]));
    if n == 0 {
      assert LeavesOf(items) == Leaves(items[0]);
    } else {
      assert forall x | x in items[..n] :: x in items;
      FlattenAllJoinsLeaves(items[..n], bound);
      JoinConcat(CleanAll(LeavesOf(items[..n])), CleanAll(Leaves(items[n])), ",");
    }
  }

  lemma {:induction false} LeavesOfConcat(a: seq<Value>, b: seq<Value>)
    ensures LeavesOf(a + b) == LeavesOf(a) + LeavesOf(b)
    decreases |b|
  {
    if b == [] {
      assert a + b == a;
    } else {
      var n := |b| - 1;
      LeavesOfConcat(a, b[..n]);
      assert (a + b)[..|a + b| - 1] == a + b[..n] && (a + b)[|a + b| - 1] == b[n];
      assert LeavesOf(b) == LeavesOf(b[..n]) + Leaves(b[n]);
    }
  }

  /** Wrapping a non-empty run of elements in an array of its own changes nothing. */
  lemma RenestingIsInvisible(a: seq<Value>, run: seq<Value>, b: seq<Value>)
    requires run != []
    ensures Flatten(Array(a + [Array(run)] + b)) == Flatten(Array(a + run + b))
  {
    LeavesOfConcat(a + [Array(run)], b);
    LeavesOfConcat(a, [Array(run)]);
    LeavesOfConcat(a + run, b);
    LeavesOfConcat(a, run);
    assert [Array(run)][..0] == [];
    assert LeavesOf([Array(run)]) == LeavesOf(run);
    FlattenJoinsLeaves(Array(a + [Array(run)] + b));
    FlattenJoinsLeaves(Array(a + run + b));
  }

  // ---------------------------------------------------------------- normal form

  predicate IsWord(w: string) {
    w != "" && forall i | 0 <= i < |w| :: !IsSpace(w[i])
  }

  predicate AllWords(ws: seq<string>) {
    forall i | 0 <= i < |ws| :: IsWord(ws[i])
  }

  lemma {:induction false} FieldsAreWords(s: string)
    ensures AllWords(Fields(s))
    ensures s != "" && !IsSpace(s[|s| - 1]) ==> |Fields(s)| > 0
  {
    if s == "" {
    } else {
      FieldsAreWords(s[..|s| - 1]);
    }
  }

  lemma AddCharBehind(front: seq<string>, words: seq<string>, inWord: bool, c: char)
    requires inWord ==> |words| > 0
    ensures AddChar(front + words, inWord, c) == front + AddChar(words, inWord, c)
  {
    if inWord {
      assert (front + words)[..|front + words| - 1] == front + words[..|words| - 1];
    }
  }

  /** A blank separates: the fields around it are those of the two sides. */
  lemma {:induction false} FieldsSplitAtBlank(a: string, blank: char, b: string)
    requires IsSpace(blank)
    ensures Fields(a + [blank] + b) == Fields(a) + Fields(b)
    decreases |b|
  {
    var s := a + [blank] + b;
    if b == "" {
      assert s[..|s| - 1] == a && s[|s| - 1] == blank;
    } else {
      var rest, c := b[..|b| - 1], b[|b| - 1];
      FieldsSplitAtBlank(a, blank, rest);
      FieldsAreWords(rest);
      var front := a + [blank] + rest;
      assert s[..|s| - 1] == front && s[|s| - 1] == c;
      assert EndsInWord(front) == EndsInWord(rest) by {
        assert rest == "" ==> front[|front| - 1] == blank;
      }
      AddCharBehind(Fields(a), Fields(rest), EndsInWord(rest), c);
    }
  }

  /** A word alone is its own only field; with the law above this determines Fields. */
  lemma {:induction false} FieldsOfWord(w: string)
    requires IsWord(w)
    ensures Fields(w) == [w]
  {
    var n := |w| - 1;
    if n == 0 {
      assert w == [w[0]];
    } else {
      FieldsOfWord(w[..n]);
      assert w == w[..n] + [w[n]];
    }
  }

  lemma JoinAppend(parts: seq<string>, w: string)
    ensures Join(parts + [w], " ") == if parts == [] then w else Join(parts, " ") + " " + w
  {
  }

  /** Splitting what was joined gives the fields back. */
  lemma {:induction false} FieldsOfJoin(ws: seq<string>)
    requires AllWords(ws)
    ensures Fields(Join(ws, " ")) == ws
    decreases |ws|
  {
    if ws == [] {
    } else {
      var front, w := ws[..|ws| - 1], ws[|ws| - 1];
      assert ws == front + [w];
      FieldsOfWord(w);
      JoinAppend(front, w);
      if front != [] {
        FieldsOfJoin(front);
        FieldsSplitAtBlank(Join(front, " "), ' ', w);
        assert Join(ws, " ") == Join(front, " ") + [' '] + w;
      }
    }
  }

  /** Splitting a collapsed string gives the fields of the original, so collapsing is idempotent. */
  lemma CollapseKeepsFields(s: string)
    ensures Fields(CollapseSpace(s)) == Fields(s)
    ensures CollapseSpace(CollapseSpace(s)) == CollapseSpace(s)
  {
    FieldsAreWords(s);
    FieldsOfJoin(Fields(s));
  }

  /** No blank but single inner spaces: the shape of every result. */
  predicate Tidy(s: string) {
    && (s != "" ==> !IsSpace(s[0]) && !IsSpace(s[|s| - 1]))
    && (forall i | 0 <= i < |s| && IsSpace(s[i]) :: s[i] == ' ')
    && (forall i | 0 <= i < |s| - 1 && IsSpace(s[i]) :: !IsSpace(s[i + 1]))
  }

  lemma {:induction false} JoinIsTidy(ws: seq<string>)
    requires AllWords(ws)
    ensures Tidy(Join(ws, " ")) && (ws != [] ==> Join(ws, " ") != "")
    decreases |ws|
  {
    if |ws| <= 1 {
    } else {
      JoinIsTidy(ws[..|ws| - 1]);
    }
  }

  /** The surrounding TrimSpace never has anything to do. */
  lemma CleanIsCollapse(s: string)
    ensures Clean(s) == CollapseSpace(s) && Tidy(Clean(s))
  {
    FieldsAreWords(s);
    JoinIsTidy(Fields(s));
  }

  lemma SumAssociates(a: string, b: string, c: string)
    ensures a + (b + c) == (a + b) + c
  {
  }

  lemma JoinLast(front: seq<string>, w: string, c: char)
    ensures Join(front + [w + [c]], " ") == Join(front + [w], " ") + [c]
  {
    JoinAppend(front, w);
    JoinAppend(front, w + [c]);
    SumAssociates(Join(front, " ") + " ", w, [c]);
  }

  /** How one more character changes the collapsed string. */
  lemma CollapseAppend(p: string, c: char)
    ensures IsSpace(c) ==> CollapseSpace(p + [c]) == CollapseSpace(p)
    ensures !IsSpace(c) && p == "" ==> CollapseSpace(p + [c]) == [c]
    ensures !IsSpace(c) && p != "" && !IsSpace(p[|p| - 1]) ==> CollapseSpace(p + [c]) == CollapseSpace(p) + [c]
    ensures !IsSpace(c) && p != "" && IsSpace(p[|p| - 1]) && Fields(p) != [] ==>
      CollapseSpace(p + [c]) == CollapseSpace(p) + " " + [c]
  {
    var before := Fields(p);
    FieldsAreWords(p);
    assert (p + [c])[..|p|] == p;
    if !IsSpace(c) && p != "" && !IsSpace(p[|p| - 1]) {
      var m := |before| - 1;
      assert before == before[..m] + [before[m]];
      JoinLast(before[..m], before[m], c);
    } else if before != [] {
      assert (before + [[c]])[..|before|] == before;
    }
  }

  /** What one more character makes of a string whose collapsed form q lacks at most a trailing blank. */
  lemma TidyGrows(p: string, c: char, q: string)
    requires q == CollapseSpace(p)
    requires p == q || (p == q + " " && Fields(p) != [])
    requires p == q && p != "" ==> !IsSpace(p[|p| - 1])
    requires IsSpace(c) ==> p == q
    ensures CollapseSpace(p + [c]) == if IsSpace(c) then q else p + [c]
  {
    CollapseAppend(p, c);
    if p == q + " " && !IsSpace(c) {
      assert IsSpace(' ') && p[|p| - 1] == ' ';
    }
  }

  /** A string without stray blanks is what collapsing makes of it, but for one trailing blank. */
  lemma {:induction false} TidyPrefix(s: string)
    requires forall i | 0 <= i < |s| && IsSpace(s[i]) :: s[i] == ' '
    requires forall i | 0 <= i < |s| - 1 && IsSpace(s[i]) :: !IsSpace(s[i + 1])
    requires s != "" ==> !IsSpace(s[0])
    ensures CollapseSpace(s) == if s != "" && IsSpace(s[|s| - 1]) then s[..|s| - 1] else s
    ensures s != "" ==> Fields(s) != []
    decreases |s|
  {
    if s == "" {
    } else {
      var p, c := s[..|s| - 1], s[|s| - 1];
      assert s == p + [c];
      TidyPrefix(p);
      FieldsAreWords(s);
      if p != "" && IsSpace(p[|p| - 1]) {
        assert p == p[..|p| - 1] + " ";
      }
      TidyGrows(p, c, CollapseSpace(p));
      if IsSpace(c) {
        assert Fields(s) == Fields(p);
      }
    }
  }

  lemma TidyAroundComma(a: string, b: string)
    requires Tidy(a) && Tidy(b)
    ensures Tidy(a + "," + b)
  {
  }

  lemma {:induction false} JoinTidyWithCommas(parts: seq<string>)
    requires forall i | 0 <= i < |parts| :: Tidy(parts[i])
    ensures Tidy(Join(parts, ","))
    decreases |parts|
  {
    if |parts| <= 1 {
    } else {
      JoinTidyWithCommas(parts[..|parts| - 1]);
      TidyAroundComma(Join(parts[..|parts| - 1], ","), parts[|parts| - 1]);
    }
  }

  /** Every result of toString is a fixed point of collapseSpace. */
  lemma ResultIsCollapsed(v: Value)
    ensures CollapseSpace(Flatten(v)) == Flatten(v)
  {
    FlattenJoinsLeaves(v);
    var parts := CleanAll(Leaves(v));
    forall i | 0 <= i < |parts|
      ensures Tidy(parts[i])
    {
      CleanIsCollapse(Leaves(v)[i]);
    }
    JoinTidyWithCommas(parts);
    TidyPrefix(Flatten(v));
  }
}

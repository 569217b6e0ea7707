/** The Kernighan-Pike matcher of user/grep.c, proved sound and complete for the
    language a pattern denotes.  Strings are given without their terminating NUL. */
module Grep {

  predicate CString(s: string) {
    '\0' !in s
  }

  function At(s: string, i: nat): char {
    if i < |s| then s[i] else '\0'
  }

  /** A pattern read as literals, dots and starred characters. */
  datatype Item = One(c: char) | Many(c: char)

  datatype Regex = Regex(items: seq<Item>, toEnd: bool)

  function Cons(i: Item, r: Regex): Regex {
    Regex([i] + r.items, r.toEnd)
  }

  function Parse(re: string): Regex {
    if re == "" then Regex([], false)
    else if At(re, 1) == '*' then Cons(Many(re[0]), Parse(re[2..]))
    else if re == "$" then Regex([], true)
    else Cons(One(re[0]), Parse(re[1..]))
  }

  /** How a pattern is written. */
  function Write(r: Regex): string
    decreases |r.items|
  {
    if r.items == [] then if r.toEnd then "$" else ""
    else
      var rest := Write(Regex(r.items[1..], r.toEnd));
      if r.items[0].One? then [r.items[0].c] + rest else [r.items[0].c, '*'] + rest
  }

  /** The patterns that can be written: a star stands for itself only at the start or after a starred
      character, and a dollar not as the last character. */
  predicate Writable(r: Regex) {
    && (forall i | 0 < i < |r.items| && r.items[i].c == '*' :: r.items[i - 1].Many?)
    && (r.items != [] && !r.toEnd ==> r.items[|r.items| - 1] != One('$'))
  }

  lemma Tail(r: Regex)
    requires r.items != []
    ensures Cons(r.items[0], Regex(r.items[1..], r.toEnd)) == r
    ensures Writable(r) ==> Writable(Regex(r.items[1..], r.toEnd))
  {
  }

  /** Reading what was written. */
  lemma {:induction false} ReadsBack(r: Regex)
    requires Writable(r)
    ensures Parse(Write(r)) == r
    decreases |r.items|
  {
    if r.items != [] {
      var rest := Regex(r.items[1..], r.toEnd);
      Tail(r);
      ReadsBack(rest);
      var s := Write(r);
      if r.items[0].One? {
        assert s[1..] == Write(rest);
        assert rest.items != [] ==> Write(rest)[0] == r.items[1].c;
        assert rest.items != [] ==> r.items[1].c != '*';
        assert At(s, 1) != '*';
        assert Write(rest) == "" ==> rest.items == [] && !r.toEnd && r.items[|r.items| - 1] == r.items[0];
        assert r.items[0] == One(s[0]) && |s| == 1 + |Write(rest)|;
      } else {
        assert s[2..] == Write(rest);
      }
    }
  }

  lemma WritableCons(i: Item, r: Regex)
    requires Writable(r) && (i.One? && r.items != [] ==> r.items[0].c != '*')
    requires i == One('$') && r.items == [] ==> r.toEnd
    ensures Writable(Cons(i, r))
  {
  }

  lemma WriteCons(i: Item, r: Regex)
    ensures Write(Cons(i, r)) == (if i.One? then [i.c] else [i.c, '*']) + Write(r)
  {
    assert Cons(i, r).items[1..] == r.items;
  }

  /** Every string is a pattern, and the only way to write it. */
  lemma {:induction false} WritesBack(re: string)
    ensures Write(Parse(re)) == re && Writable(Parse(re))
  {
    if re == "" || (At(re, 1) != '*' && re == "$") {
    } else if At(re, 1) == '*' {
      WritesBack(re[2..]);
      WriteCons(Many(re[0]), Parse(re[2..]));
      WritableCons(Many(re[0]), Parse(re[2..]));
      assert re == [re[0], '*'] + re[2..];
    } else {
      var rest := Parse(re[1..]);
      WritesBack(re[1..]);
      WriteCons(One(re[0]), rest);
      assert rest.items != [] ==> re[1..][0] == rest.items[0].c;
      assert rest.items == [] ==> re[1..] == if rest.toEnd then "$" else "";
      WritableCons(One(re[0]), rest);
    }
  }

  predicate Fits(c: char, t: char) {
    c == '.' || c == t
  }

  /** One item stands for one piece of text ... */
  predicate Piece(i: Item, w: string) {
    match i
    case One(c) => |w| == 1 && Fits(c, w[0])
    case Many(c) => forall j | 0 <= j < |w| :: Fits(c, w[j])
  }

  function Flatten(ws: seq<string>): string {
    if ws == [] then "" else ws[0] + Flatten(ws[1..])
  }

  predicate Pieces(items: seq<Item>, ws: seq<string>) {
    && |ws| == |items|
    && forall i | 0 <= i < |items| :: Piece(items[i], ws[i])
  }

  /** ... and a list of items for the concatenations of such pieces. */
  ghost predicate InLanguage(items: seq<Item>, w: string) {
    exists ws: seq<string> :: Pieces(items, ws) && Flatten(ws) == w
  }

  ghost predicate Prefix(r: Regex, text: string, k: nat) {
    k <= |text| && InLanguage(r.items, text[..k]) && (r.toEnd ==> k == |text|)
  }

  /** Some prefix of the text (all of it, under a trailing $) is in the language. */
  ghost predicate MatchesHere(r: Regex, text: string) {
    exists k: nat :: Prefix(r, text, k)
  }

  ghost predicate MatchesFrom(r: Regex, text: string, i: nat) {
    i <= |text| && MatchesHere(r, text[i..])
  }

  ghost predicate Matches(re: string, text: string) {
    if At(re, 0) == '^' then MatchesHere(Parse(re[1..]), text)
    else exists i: nat :: MatchesFrom(Parse(re), text, i)
  }

  lemma LanguageNil(w: string)
    ensures InLanguage([], w) <==> w == ""
  {
    if w == "" {
      assert Pieces([], []) && Flatten([]) == w;
    }
  }

  lemma LanguageCons(i: Item, items: seq<Item>, w: string)
    ensures InLanguage([i] + items, w) <==>
            exists k :: 0 <= k <= |w| && Piece(i, w[..k]) && InLanguage(items, w[k..])
  {
    if InLanguage([i] + items, w) {
      var ws :| Pieces([i] + items, ws) && Flatten(ws) == w;
      var k := |ws[0]|;
      assert forall j | 0 <= j < |items| :: items[j] == ([i] + items)[j + 1];
      assert Pieces(items, ws[1..]);
      assert w[..k] == ws[0] && w[k..] == Flatten(ws[1..]);
      assert Piece(([i] + items)[0], ws[0]);
    }
    if k :| 0 <= k <= |w| && Piece(i, w[..k]) && InLanguage(items, w[k..]) {
      var ws :| Pieces(items, ws) && Flatten(ws) == w[k..];
      var all := [w[..k]] + ws;
      assert all[1..] == ws;
      assert Flatten(all) == w;
      assert Pieces([i] + items, all);
    }
  }

  lemma HereNil(text: string)
    ensures MatchesHere(Regex([], false), text)
    ensures MatchesHere(Regex([], true), text) <==> text == ""
  {
    LanguageNil(text[..0]);
    assert Prefix(Regex([], false), text, 0);
    if text == "" {
      assert Prefix(Regex([], true), text, 0);
    }
    if k: nat :| Prefix(Regex([], true), text, k) {
      LanguageNil(text[..k]);
    }
  }

  lemma {:induction false} HereOne(c: char, r: Regex, text: string)
    ensures MatchesHere(Cons(One(c), r), text) <==>
            text != "" && Fits(c, text[0]) && MatchesHere(r, text[1..])
  {
    if k: nat :| Prefix(Cons(One(c), r), text, k) {
      LanguageCons(One(c), r.items, text[..k]);
      var j :| 0 <= j <= k && Piece(One(c), text[..k][..j]) && InLanguage(r.items, text[..k][j..]);
      assert text[..k][1..] == text[1..][..k - 1];
      assert Prefix(r, text[1..], k - 1);
    }
    if text != "" && Fits(c, text[0]) && MatchesHere(r, text[1..]) {
      var k: nat :| Prefix(r, text[1..], k);
      var w := text[..k + 1];
      assert w[1..] == text[1..][..k];
      assert Piece(One(c), w[..1]);
      LanguageCons(One(c), r.items, w);
      assert Prefix(Cons(One(c), r), text, k + 1);
    }
  }

  predicate Run(c: char, text: string, k: nat) {
    k <= |text| && forall j | 0 <= j < k :: Fits(c, text[j])
  }

  lemma ManySplit(c: char, r: Regex, text: string, n: nat) returns (k: nat)
    requires Prefix(Cons(Many(c), r), text, n)
    ensures Run(c, text, k) && MatchesHere(r, text[k..])
  {
    LanguageCons(Many(c), r.items, text[..n]);
    k :| 0 <= k <= n && Piece(Many(c), text[..n][..k]) && InLanguage(r.items, text[..n][k..]);
    assert text[..n][..k] == text[..k];
    assert forall j | 0 <= j < k :: text[j] == text[..k][j];
    assert text[..n][k..] == text[k..][..n - k];
    assert Prefix(r, text[k..], n - k);
  }

  lemma ManyJoin(c: char, r: Regex, text: string, k: nat)
    requires Run(c, text, k) && MatchesHere(r, text[k..])
    ensures MatchesHere(Cons(Many(c), r), text)
  {
    var n: nat :| Prefix(r, text[k..], n);
    var w := text[..k + n];
    assert w[k..] == text[k..][..n];
    assert Piece(Many(c), w[..k]);
    LanguageCons(Many(c), r.items, w);
    assert Prefix(Cons(Many(c), r), text, k + n);
  }

  lemma HereMany(c: char, r: Regex, text: string)
    ensures MatchesHere(Cons(Many(c), r), text) <==>
            exists k: nat :: Run(c, text, k) && MatchesHere(r, text[k..])
  {
    if n: nat :| Prefix(Cons(Many(c), r), text, n) {
      var k := ManySplit(c, r, text, n);
    }
    if k: nat :| Run(c, text, k) && MatchesHere(r, text[k..]) {
      ManyJoin(c, r, text, k);
    }
  }

  /** matchhere: does the pattern match at the start of the text? */
  method MatchHere(re: string, text: string) returns (b: bool)
    requires CString(re) && CString(text)
    ensures b <==> MatchesHere(Parse(re), text)
    decreases |re|, 0
  {
    if At(re, 0) == '\0' {
      HereNil(text);
      return true;
    }
    if At(re, 1) == '*' {
      b := MatchStar(re[0], re[2..], text);
      HereMany(re[0], Parse(re[2..]), text);
      return;
    }
    if re[0] == '$' && At(re, 1) == '\0' {
      assert re == "$";
      HereNil(text);
      return At(text, 0) == '\0';
    }
    HereOne(re[0], Parse(re[1..]), text);
    if At(text, 0) != '\0' && (re[0] == '.' || re[0] == At(text, 0)) {
      b := MatchHere(re[1..], text[1..]);
      return;
    }
    return false;
  }

  /** matchstar: does c*re match at the start of the text? */
  method MatchStar(c: char, re: string, text: string) returns (b: bool)
    requires CString(re) && CString(text)
    ensures b <==> exists k: nat :: Run(c, text, k) && MatchesHere(Parse(re), text[k..])
    decreases |re|, 1
  {
    var t := 0;
    while true
      invariant Run(c, text, t)
      invariant forall k: nat | k < t :: !MatchesHere(Parse(re), text[k..])
      decreases |text| - t
    {
      var here := MatchHere(re, text[t..]);
      if here { return true; }
      if !(At(text, t) != '\0' && (text[t] == c || c == '.')) { break; }
      t := t + 1;
    }
    return false;
  }

  /** match: 1 iff some substring, anchored as ^ and a trailing $ demand, is in the
      language of the pattern. */
  method Match(re: string, text: string) returns (b: bool)
    requires CString(re) && CString(text)
    ensures b <==> Matches(re, text)
  {
    if At(re, 0) == '^' {
      b := MatchHere(re[1..], text);
      return;
    }
    var t := 0;
    while true
      invariant t <= |text|
      invariant forall i: nat | i < t :: !MatchesFrom(Parse(re), text, i)
      decreases |text| - t
    {
      var here := MatchHere(re, text[t..]);
      if here {
        assert MatchesFrom(Parse(re), text, t);
        return true;
      }
      if At(text, t) == '\0' { break; }
      t := t + 1;
    }
    assert t == |text|;
    return false;
  }
}

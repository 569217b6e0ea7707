/**
  * The language of the shell (user/sh.c:282-462), told without the parser: the tokens, how a line spells
  * them, and the grammar.  The parser accepts exactly the lines of this language, and builds the tree that
  * the grammar gives.
  */
module ShellGrammar {
  import opened Shell

  // ---------------------------------------------------------------- tokens and lines

  /** A symbol by its character, with '+' for >>, or a word. */
  datatype Tok = Symbol(kind: char) | Word(text: string)

  const LESS := Symbol('<')
  const GREATER := Symbol('>')
  const ONTO := Symbol('+')
  const BAR := Symbol('|')
  const AMP := Symbol('&')
  const SEMI := Symbol(';')
  const OPEN := Symbol('(')
  const CLOSE := Symbol(')')

  function Spelling(t: Tok): string {
    if t.Word? then t.text else if t == ONTO then ">>" else [t.kind]
  }

  predicate IsPlainWord(w: string) {
    && w != ""
    && forall k | 0 <= k < |w| ::
         w[k] !in {'\0', ' ', '\t', '\r', '\n', '\U{0B}'} && w[k] !in {'<', '|', '>', '&', ';', '(', ')'}
  }

  predicate IsTok(t: Tok) {
    if t.Word? then IsPlainWord(t.text) else t in {LESS, GREATER, ONTO, BAR, AMP, SEMI, OPEN, CLOSE}
  }

  predicate AreToks(ts: seq<Tok>) {
    forall k | 0 <= k < |ts| :: IsTok(ts[k])
  }

  predicate IsBlank(g: string) {
    forall k | 0 <= k < |g| :: g[k] in {' ', '\t', '\r', '\n', '\U{0B}'}
  }

  /** Tokens that run together when nothing stands between them. */
  predicate Clash(t: Tok, u: Tok) {
    (t.Word? && u.Word?) || (t == GREATER && (u == GREATER || u == ONTO))
  }

  /** Space before, between and behind the tokens: none where none is needed, any amount of it anywhere. */
  predicate Spaced(gaps: seq<string>, ts: seq<Tok>) {
    && |gaps| == |ts| + 1 && (forall k | 0 <= k < |gaps| :: IsBlank(gaps[k]))
    && forall k | 0 < k < |ts| && Clash(ts[k - 1], ts[k]) :: gaps[k] != ""
  }

  /** The line that spells these tokens with these gaps. */
  function Spell(gaps: seq<string>, ts: seq<Tok>): string
    requires |gaps| == |ts| + 1
  {
    if ts == [] then gaps[0] else gaps[0] + Spelling(ts[0]) + Spell(gaps[1..], ts[1..])
  }

  // ---------------------------------------------------------------- the grammar

  datatype Part = Arg(word: string) | Into(redirection: Redirection<string>)

  /** A command: words and redirections in any order, or a line in parentheses with redirections behind it. */
  datatype Unit = Plain(parts: seq<Part>) | Group(line: Line, redirs: seq<Redirection<string>>)

  datatype Pipeline = One(unit: Unit) | Piped(unit: Unit, rest: Pipeline)

  /** A pipeline and some ampersands, and perhaps a semicolon and another line. */
  datatype Line = Last(pipe: Pipeline, amps: nat) | Then(pipe: Pipeline, amps: nat, rest: Line)

  function ModeTok(m: Mode): Tok {
    match m
    case Input => LESS
    case Output => GREATER
    case Append => ONTO
  }

  function RedirToks(rs: seq<Redirection<string>>): seq<Tok> {
    if rs == [] then [] else [ModeTok(rs[0].mode), Word(rs[0].file)] + RedirToks(rs[1..])
  }

  function PartToks(parts: seq<Part>): seq<Tok> {
    if parts == [] then []
    else (if parts[0].Arg? then [Word(parts[0].word)] else RedirToks([parts[0].redirection])) + PartToks(parts[1..])
  }

  function Amps(n: nat): seq<Tok> {
    if n == 0 then [] else [AMP] + Amps(n - 1)
  }

  function UnitToks(u: Unit): seq<Tok> {
    match u
    case Plain(parts) => PartToks(parts)
    case Group(line, redirs) => [OPEN] + LineToks(line) + [CLOSE] + RedirToks(redirs)
  }

  function PipeToks(p: Pipeline): seq<Tok> {
    match p
    case One(unit) => UnitToks(unit)
    case Piped(unit, rest) => UnitToks(unit) + [BAR] + PipeToks(rest)
  }

  function LineToks(l: Line): seq<Tok> {
    match l
    case Last(pipe, amps) => PipeToks(pipe) + Amps(amps)
    case Then(pipe, amps, rest) => PipeToks(pipe) + Amps(amps) + [SEMI] + LineToks(rest)
  }

  /** The words among the parts, and the redirections among them. */
  function ArgsOf(parts: seq<Part>): seq<string> {
    if parts == [] then [] else (if parts[0].Arg? then [parts[0].word] else []) + ArgsOf(parts[1..])
  }

  function RedirsOf(parts: seq<Part>): seq<Redirection<string>> {
    if parts == [] then [] else (if parts[0].Into? then [parts[0].redirection] else []) + RedirsOf(parts[1..])
  }

  function Backed(t: Cmd<string>, n: nat): Cmd<string>
    decreases n
  {
    if n == 0 then t else Backed(Back(t), n - 1)
  }

  /** The trees the grammar gives. */
  function UnitTree(u: Unit): Cmd<string> {
    match u
    case Plain(parts) => Wrap(Exec(ArgsOf(parts)), RedirsOf(parts))
    case Group(line, redirs) => Wrap(LineTree(line), redirs)
  }

  function PipeTree(p: Pipeline): Cmd<string> {
    match p
    case One(unit) => UnitTree(unit)
    case Piped(unit, rest) => Pipe(UnitTree(unit), PipeTree(rest))
  }

  function LineTree(l: Line): Cmd<string> {
    match l
    case Last(pipe, amps) => Backed(PipeTree(pipe), amps)
    case Then(pipe, amps, rest) => List(Backed(PipeTree(pipe), amps), LineTree(rest))
  }

  /** No command has ten words. */
  predicate UnitSmall(u: Unit) {
    match u
    case Plain(parts) => |ArgsOf(parts)| < MAXARGS
    case Group(line, _) => LineSmall(line)
  }

  predicate PipeSmall(p: Pipeline) {
    UnitSmall(p.unit) && (p.Piped? ==> PipeSmall(p.rest))
  }

  predicate LineSmall(l: Line) {
    PipeSmall(l.pipe) && (l.Then? ==> LineSmall(l.rest))
  }

  // ---------------------------------------------------------------- what gettoken sees

  /** A token as gettoken returns it. */
  function TokOf(s: string, t: Token): Tok
    requires t.span.q <= t.span.eq <= |s|
  {
    if t.kind == 'a' then Word(s[t.span.q..t.span.eq]) else Symbol(t.kind)
  }

  /** The tokens gettoken finds from i on. */
  function Lex(s: string, i: nat): seq<Tok>
    requires i <= |s| && IsLine(s)
    decreases |s| - i
  {
    var t := TokenAt(s, i);
    if t.kind == '\0' then [] else [TokOf(s, t)] + Lex(s, t.next)
  }

  /** What peek looks at: the first character of a symbol. */
  function Sign(t: Tok): char {
    if t.Word? then 'a' else if t == ONTO then '>' else t.kind
  }

  function Lead(ts: seq<Tok>): char {
    if ts == [] then '\0' else Sign(ts[0])
  }

  lemma {:induction false} SkipTwice(s: string, i: nat)
    requires i <= |s|
    ensures SkipSpace(s, SkipSpace(s, i)) == SkipSpace(s, i)
  {
  }

  lemma LexSkip(s: string, i: nat)
    requires i <= |s| && IsLine(s)
    ensures TokenAt(s, SkipSpace(s, i)) == TokenAt(s, i) && Lex(s, SkipSpace(s, i)) == Lex(s, i)
  {
    SkipTwice(s, i);
  }

  lemma LexSign(s: string, i: nat)
    requires i <= |s| && IsLine(s)
    ensures var q := SkipSpace(s, i); Lead(Lex(s, i)) == if q == |s| then '\0' else if IsSymbol(s[q]) then s[q] else 'a'
  {
  }

  lemma LexPeek(s: string, i: nat, toks: set<char>)
    requires i <= |s| && IsLine(s) && forall c | c in toks :: IsSymbol(c)
    ensures Peeks(s, SkipSpace(s, i), toks) <==> Lead(Lex(s, i)) in toks
    ensures TokenAt(s, SkipSpace(s, i)) == TokenAt(s, i) && Lex(s, SkipSpace(s, i)) == Lex(s, i)
  {
    LexSign(s, i);
    LexSkip(s, i);
  }

  /** gettoken, where the next token is known. */
  lemma LexStep(s: string, i: nat, t: Tok, rest: seq<Tok>) returns (n: nat)
    requires i <= |s| && IsLine(s) && Lex(s, i) == [t] + rest
    ensures n == TokenAt(s, i).next && i < n <= |s| && Lex(s, n) == rest && TokOf(s, TokenAt(s, i)) == t
    ensures TokenAt(s, i).kind == 'a' <==> t.Word?
  {
    n := TokenAt(s, i).next;
    assert Lex(s, i)[1..] == Lex(s, n);
    assert ([t] + rest)[1..] == rest;
  }

  // ---------------------------------------------------------------- gettoken reads what a line spells

  lemma {:induction false} SkipBlank(s: string, i: nat, q: nat)
    requires i <= q <= |s| && (forall k | i <= k < q :: IsSpace(s[k])) && (q < |s| ==> !IsSpace(s[q]))
    ensures SkipSpace(s, i) == q
    decreases q - i
  {
    if i < q { SkipBlank(s, i + 1, q); }
  }

  lemma {:induction false} Skipped(s: string, i: nat, k: nat)
    requires i <= |s| && i <= k < SkipSpace(s, i)
    ensures IsSpace(s[k])
    decreases k - i
  {
    if i < k { Skipped(s, i + 1, k); }
  }

  lemma SpellingFirst(t: Tok)
    requires IsTok(t)
    ensures Spelling(t) != "" && !IsSpace(Spelling(t)[0]) && (IsWordChar(Spelling(t)[0]) <==> t.Word?)
    ensures Spelling(t)[0] == '>' <==> t == GREATER || t == ONTO
  {
  }

  /** What a line begins with, when no space does. */
  lemma SpellFirst(gaps: seq<string>, ts: seq<Tok>, before: Tok)
    requires |gaps| == |ts| + 1 && IsBlank(gaps[0]) && AreToks(ts) && Spell(gaps, ts) != ""
    requires ts != [] && Clash(before, ts[0]) ==> gaps[0] != ""
    ensures var c := Spell(gaps, ts)[0];
      (before.Word? ==> !IsWordChar(c)) && (before == GREATER ==> c != '>') && (gaps[0] == "" ==> !IsSpace(c))
  {
    if ts != [] {
      SpellingFirst(ts[0]);
      if gaps[0] == "" { assert Spell(gaps, ts)[0] == Spelling(ts[0])[0]; }
    }
    if gaps[0] != "" { assert Spell(gaps, ts)[0] == gaps[0][0]; }
  }

  /** A token that stands at q, with e behind it, is the one gettoken returns. */
  lemma TokenIs(s: string, i: nat, q: nat, e: nat, t: Tok)
    requires i <= q < e <= |s| && IsLine(s) && IsTok(t) && SkipSpace(s, i) == q && s[q..e] == Spelling(t)
    requires e < |s| ==> (t.Word? ==> !IsWordChar(s[e])) && (t == GREATER ==> s[e] != '>')
    ensures Lex(s, i) == [t] + Lex(s, e)
  {
    SpellingFirst(t);
    assert forall k | q <= k < e :: s[k] == s[q..e][k - q];
    if t.Word? { WordEndIs(s, q, e); }
    LexSkip(s, e);
    assert TokenAt(s, i).span == Span(q, e) && TokenAt(s, i).next == SkipSpace(s, e);
  }

  lemma SpellSplit(s: string, i: nat, g: string, w: string, rest: string)
    requires i <= |s| && s[i..] == g + w + rest
    ensures var q := i + |g|; var e := q + |w|; e <= |s| && s[i..q] == g && s[q..e] == w && s[e..] == rest
  {
    var q := i + |g|;
    var e := q + |w|;
    var r := s[i..];
    assert s[i..q] == r[..|g|] && s[q..e] == r[|g|..|g| + |w|] && s[e..] == r[|g| + |w|..];
  }

  lemma SpacedTail(gaps: seq<string>, ts: seq<Tok>)
    requires Spaced(gaps, ts) && AreToks(ts) && ts != []
    ensures Spaced(gaps[1..], ts[1..]) && AreToks(ts[1..])
    ensures ts[1..] != [] && Clash(ts[0], ts[1..][0]) ==> gaps[1..][0] != ""
  {
    var g, u := gaps[1..], ts[1..];
    forall k | 0 < k < |u| && Clash(u[k - 1], u[k])
      ensures g[k] != ""
    {
      assert u[k - 1] == ts[k + 1 - 1] && u[k] == ts[k + 1];
    }
  }

  /** Space, and behind it a token. */
  lemma Placed(s: string, i: nat, g: string, t: Tok, rest: string) returns (q: nat, e: nat)
    requires i <= |s| && IsBlank(g) && IsTok(t) && s[i..] == g + Spelling(t) + rest
    ensures i <= q < e <= |s| && SkipSpace(s, i) == q && s[q..e] == Spelling(t) && s[e..] == rest
  {
    SpellSplit(s, i, g, Spelling(t), rest);
    SpellingFirst(t);
    q := i + |g|;
    e := q + |Spelling(t)|;
    assert forall k | i <= k < q :: s[k] == s[i..q][k - i];
    assert s[q] == s[q..e][0];
    SkipBlank(s, i, q);
  }

  /** The tokens are read back, whatever the space around them. */
  lemma {:induction false} LexSpell(s: string, i: nat, gaps: seq<string>, ts: seq<Tok>)
    requires i <= |s| && IsLine(s) && Spaced(gaps, ts) && AreToks(ts) && s[i..] == Spell(gaps, ts)
    ensures Lex(s, i) == ts
    decreases |ts|
  {
    if ts == [] {
      assert forall k | i <= k < |s| :: s[k] == gaps[0][k - i];
      SkipBlank(s, i, |s|);
    } else {
      var rest := Spell(gaps[1..], ts[1..]);
      var q, e := Placed(s, i, gaps[0], ts[0], rest);
      SpacedTail(gaps, ts);
      if rest != "" {
        SpellFirst(gaps[1..], ts[1..], ts[0]);
        assert s[e] == s[e..][0];
      }
      TokenIs(s, i, q, e, ts[0]);
      LexSpell(s, e, gaps[1..], ts[1..]);
    }
  }

  /** The first token of a line, where it stands and what cannot follow it. */
  lemma TokenStands(s: string, i: nat) returns (t: Tok, q: nat, e: nat)
    requires i <= |s| && IsLine(s) && Lex(s, i) != []
    ensures i <= q < e <= |s| && IsBlank(s[i..q]) && IsTok(t) && s[q..e] == Spelling(t) && Lex(s, i) == [t] + Lex(s, e)
    ensures q == SkipSpace(s, i)
    ensures e < |s| ==> (t.Word? ==> !IsWordChar(s[e])) && (t == GREATER ==> s[e] != '>')
  {
    var k := TokenAt(s, i);
    t, q, e := TokOf(s, k), k.span.q, k.span.eq;
    forall j | i <= j < q
      ensures IsSpace(s[j])
    {
      Skipped(s, i, j);
    }
    LexSkip(s, e);
    if t.Word? {
      forall j | q <= j < e
        ensures IsWordChar(s[j])
      {
        WordChars(s, q, j);
      }
      WordStops(s, q);
    }
  }

  lemma SpacedCons(g: string, t: Tok, gaps: seq<string>, ts: seq<Tok>)
    requires IsBlank(g) && IsTok(t) && Spaced(gaps, ts) && AreToks(ts)
    requires ts != [] && Clash(t, ts[0]) ==> gaps[0] != ""
    ensures Spaced([g] + gaps, [t] + ts) && AreToks([t] + ts)
    ensures Spell([g] + gaps, [t] + ts) == g + Spelling(t) + Spell(gaps, ts)
  {
    var g', t' := [g] + gaps, [t] + ts;
    assert g'[1..] == gaps && t'[1..] == ts;
    forall k | 0 < k < |t'| && Clash(t'[k - 1], t'[k])
      ensures g'[k] != ""
    {
      if k > 1 { assert t'[k - 1] == ts[k - 2] && t'[k] == ts[k - 1]; }
    }
  }

  lemma Respell(s: string, i: nat, q: nat, e: nat, t: Tok, gaps: seq<string>, ts: seq<Tok>)
    requires i <= q < e <= |s| && IsBlank(s[i..q]) && IsTok(t) && s[q..e] == Spelling(t)
    requires Spaced(gaps, ts) && AreToks(ts) && s[e..] == Spell(gaps, ts)
    requires e < |s| ==> (t.Word? ==> !IsWordChar(s[e])) && (t == GREATER ==> s[e] != '>')
    ensures Spaced([s[i..q]] + gaps, [t] + ts) && AreToks([t] + ts) && s[i..] == Spell([s[i..q]] + gaps, [t] + ts)
  {
    if ts != [] && gaps[0] == "" {
      SpellingFirst(ts[0]);
      assert Spell(gaps, ts)[0] == Spelling(ts[0])[0];
      assert s[e] == s[e..][0];
    }
    SpacedCons(s[i..q], t, gaps, ts);
    assert s[i..] == s[i..q] + s[q..e] + s[e..];
  }

  /** Every line spells the tokens gettoken finds in it. */
  lemma {:induction false} SpellLex(s: string, i: nat) returns (gaps: seq<string>)
    requires i <= |s| && IsLine(s)
    ensures Spaced(gaps, Lex(s, i)) && AreToks(Lex(s, i)) && s[i..] == Spell(gaps, Lex(s, i))
    decreases |s| - i
  {
    if Lex(s, i) == [] {
      forall j | i <= j < |s|
        ensures IsSpace(s[j])
      {
        Skipped(s, i, j);
      }
      gaps := [s[i..]];
    } else {
      var t, q, e := TokenStands(s, i);
      var more := SpellLex(s, e);
      gaps := [s[i..q]] + more;
      Respell(s, i, q, e, t, more, Lex(s, e));
    }
  }

  /** gettoken finds these tokens exactly in the lines that spell them. */
  lemma LexExact(s: string, ts: seq<Tok>)
    requires IsLine(s)
    ensures Lex(s, 0) == ts <==> exists gaps :: Spaced(gaps, ts) && AreToks(ts) && s == Spell(gaps, ts)
  {
    var gaps := SpellLex(s, 0);
    assert s[0..] == s;
    forall gaps | Spaced(gaps, ts) && AreToks(ts) && s == Spell(gaps, ts)
      ensures Lex(s, 0) == ts
    {
      LexSpell(s, 0, gaps, ts);
    }
  }

  // ---------------------------------------------------------------- every line of the grammar is accepted

  function Named(s: string, rs: seq<Redirection<Span>>): seq<Redirection<string>>
    requires Files(s, rs)
  {
    seq(|rs|, k requires 0 <= k < |rs| => Redirection(Slice(s, rs[k].file), rs[k].mode))
  }

  lemma {:induction false} WrapText(s: string, c: Cmd<Span>, rs: seq<Redirection<Span>>)
    requires Words(s, c) && Files(s, rs)
    ensures Words(s, Wrap(c, rs)) && Text(s, Wrap(c, rs)) == Wrap(Text(s, c), Named(s, rs))
    decreases |rs|
  {
    WrapWords(s, c, rs);
    if rs != [] {
      var n := |rs| - 1;
      WrapText(s, c, rs[..n]);
      assert Named(s, rs)[..n] == Named(s, rs[..n]);
    }
  }

  /** What may stand behind a line, a pipeline and a command. */
  predicate EndsLine(ts: seq<Tok>) {
    Lead(ts) == '\0' || Lead(ts) == ')'
  }

  predicate EndsPipe(ts: seq<Tok>) {
    EndsLine(ts) || Lead(ts) == '&' || Lead(ts) == ';'
  }

  predicate Redirects(ts: seq<Tok>) {
    Lead(ts) == '<' || Lead(ts) == '>'
  }

  predicate EndsUnit(ts: seq<Tok>) {
    EndsPipe(ts) || Lead(ts) == '|'
  }

  lemma RedirSeen(s: string, i: nat, r: Redirection<string>, rest: seq<Tok>) returns (op: Token, f: Token)
    requires i <= |s| && IsLine(s) && Lex(s, i) == [ModeTok(r.mode), Word(r.file)] + rest
    ensures op == TokenAt(s, i) && ModeOf(op.kind) == r.mode && Redirects(Lex(s, i))
    ensures f == TokenAt(s, op.next) && f.kind == 'a' && Slice(s, f.span) == r.file
    ensures i < f.next && Lex(s, f.next) == rest
  {
    assert [ModeTok(r.mode), Word(r.file)] + rest == [ModeTok(r.mode)] + ([Word(r.file)] + rest);
    var k := LexStep(s, i, ModeTok(r.mode), [Word(r.file)] + rest);
    var n := LexStep(s, k, Word(r.file), rest);
    op, f := TokenAt(s, i), TokenAt(s, k);
  }

  lemma RedirStep(s: string, i: nat, acc: seq<Redirection<Span>>, r: Redirection<string>, rest: seq<Tok>)
    returns (n: nat, acc': seq<Redirection<Span>>)
    requires i <= |s| && IsLine(s) && Files(s, acc) && Lex(s, i) == [ModeTok(r.mode), Word(r.file)] + rest
    ensures i < n <= |s| && Lex(s, n) == rest && Files(s, acc') && Named(s, acc') == Named(s, acc) + [r]
    ensures RedirsAt(s, i, acc) == RedirsAt(s, n, acc')
  {
    var op, f := RedirSeen(s, i, r, rest);
    LexPeek(s, i, {'<', '>'});
    n, acc' := f.next, acc + [Redirection(f.span, r.mode)];
  }

  lemma Regroup<T>(a: seq<T>, b: seq<T>)
    requires b != []
    ensures a + [b[0]] + b[1..] == a + b
  {
  }

  lemma Nest<T>(a: seq<T>, b: seq<T>, x: T, c: seq<T>, d: seq<T>)
    ensures a + b + [x] + c + d == a + (b + ([x] + (c + d)))
    ensures a + b + d == a + (b + d)
  {
  }

  lemma RedirsEnd(s: string, i: nat, acc: seq<Redirection<Span>>)
    requires i <= |s| && IsLine(s) && Files(s, acc) && !Redirects(Lex(s, i))
    ensures var r := RedirsAt(s, i, acc); r.Done? && r.value == acc && Lex(s, r.next) == Lex(s, i)
  {
    LexPeek(s, i, {'<', '>'});
  }

  lemma {:induction false} RedirsRead(s: string, i: nat, acc: seq<Redirection<Span>>, rs: seq<Redirection<string>>,
                                      rest: seq<Tok>)
    requires i <= |s| && IsLine(s) && Files(s, acc) && Lex(s, i) == RedirToks(rs) + rest && !Redirects(rest)
    ensures var r := RedirsAt(s, i, acc);
      r.Done? && Lex(s, r.next) == rest && Named(s, r.value) == Named(s, acc) + rs
    decreases |rs|
  {
    if rs == [] {
      assert RedirToks(rs) + rest == rest;
      RedirsEnd(s, i, acc);
    } else {
      var r, more := rs[0], rs[1..];
      Nest([ModeTok(r.mode), Word(r.file)], RedirToks(more), BAR, [], rest);
      var n, acc' := RedirStep(s, i, acc, r, RedirToks(more) + rest);
      RedirsRead(s, n, acc', more, rest);
      Regroup(Named(s, acc), rs);
    }
  }

  /** No redirection follows. */
  lemma NoRedirs(s: string, i: nat, m: Simple)
    requires i <= |s| && IsLine(s) && SimpleWords(s, m) && !Redirects(Lex(s, i))
    ensures SimpleAt(s, i, m) == ArgsAt(s, i, m)
  {
    LexPeek(s, i, {'<', '>'});
    ArgsSkip(s, i, m);
  }

  lemma ArgStep(s: string, i: nat, m: Simple, w: string, rest: seq<Tok>) returns (n: nat, m': Simple)
    requires i <= |s| && IsLine(s) && SimpleWords(s, m) && Lex(s, i) == [Word(w)] + rest
    ensures i < n <= |s| && Lex(s, n) == rest
    ensures |m.args| + 1 < MAXARGS ==> SimpleWords(s, m') && SimpleAt(s, i, m) == SimpleAt(s, n, m')
    ensures |m.args| + 1 < MAXARGS ==> m'.redirs == m.redirs && Slices(s, m'.args) == Slices(s, m.args) + [w]
    ensures |m.args| + 1 >= MAXARGS ==> SimpleAt(s, i, m) == Panic
  {
    NoRedirs(s, i, m);
    LexPeek(s, i, {'|', ')', '&', ';'});
    n := LexStep(s, i, Word(w), rest);
    m' := Simple(m.args + [TokenAt(s, i).span], m.redirs);
  }

  lemma SimpleEnds(s: string, i: nat, m: Simple)
    requires i <= |s| && IsLine(s) && SimpleWords(s, m) && EndsUnit(Lex(s, i))
    ensures var r := SimpleAt(s, i, m); r.Done? && r.value == m && Lex(s, r.next) == Lex(s, i)
  {
    NoRedirs(s, i, m);
    LexPeek(s, i, {'|', ')', '&', ';'});
  }

  /** The parts were read behind those of m. */
  ghost predicate ReadParts(s: string, m: Simple, parts: seq<Part>, rest: seq<Tok>, r: Outcome<Simple>)
    requires IsLine(s) && SimpleWords(s, m) && Ahead(s, 0, r) && (r.Done? ==> SimpleWords(s, r.value))
  {
    && (r.Done? <==> |m.args| + |ArgsOf(parts)| < MAXARGS)
    && (r.Done? ==>
          && Lex(s, r.next) == rest && Slices(s, r.value.args) == Slices(s, m.args) + ArgsOf(parts)
          && Named(s, r.value.redirs) == Named(s, m.redirs) + RedirsOf(parts))
  }

  lemma ReadArg(s: string, m: Simple, m': Simple, parts: seq<Part>, rest: seq<Tok>, r: Outcome<Simple>)
    requires IsLine(s) && SimpleWords(s, m) && SimpleWords(s, m') && Ahead(s, 0, r)
    requires r.Done? ==> SimpleWords(s, r.value)
    requires parts != [] && parts[0].Arg? && m'.redirs == m.redirs
    requires Slices(s, m'.args) == Slices(s, m.args) + [parts[0].word] && ReadParts(s, m', parts[1..], rest, r)
    ensures ReadParts(s, m, parts, rest, r)
  {
    assert ArgsOf(parts) == [parts[0].word] + ArgsOf(parts[1..]);
    Regroup(Slices(s, m.args), ArgsOf(parts));
    assert |Slices(s, m'.args)| == |m'.args|;
    assert RedirsOf(parts) == RedirsOf(parts[1..]);
  }

  lemma ReadInto(s: string, m: Simple, m': Simple, parts: seq<Part>, rest: seq<Tok>, r: Outcome<Simple>)
    requires IsLine(s) && SimpleWords(s, m) && SimpleWords(s, m') && Ahead(s, 0, r)
    requires r.Done? ==> SimpleWords(s, r.value)
    requires parts != [] && parts[0].Into? && m'.args == m.args
    requires Named(s, m'.redirs) == Named(s, m.redirs) + [parts[0].redirection]
    requires ReadParts(s, m', parts[1..], rest, r)
    ensures ReadParts(s, m, parts, rest, r)
  {
    var x := parts[0].redirection;
    assert RedirsOf(parts) == [x] + RedirsOf(parts[1..]);
    Regroup(Named(s, m.redirs), RedirsOf(parts));
    assert ArgsOf(parts) == ArgsOf(parts[1..]);
  }

  lemma {:induction false} PartsRead(s: string, i: nat, m: Simple, parts: seq<Part>, rest: seq<Tok>)
    requires i <= |s| && IsLine(s) && SimpleWords(s, m) && Lex(s, i) == PartToks(parts) + rest && EndsUnit(rest)
    ensures ReadParts(s, m, parts, rest, SimpleAt(s, i, m))
    decreases |parts|
  {
    if parts == [] {
      assert PartToks(parts) + rest == rest;
      SimpleEnds(s, i, m);
    } else if parts[0].Arg? {
      var w, tail := parts[0].word, PartToks(parts[1..]) + rest;
      Nest([Word(w)], PartToks(parts[1..]), BAR, [], rest);
      var n, m' := ArgStep(s, i, m, w, tail);
      if |m.args| + 1 < MAXARGS {
        PartsRead(s, n, m', parts[1..], rest);
        ReadArg(s, m, m', parts, rest, SimpleAt(s, i, m));
      }
    } else {
      var r, tail := parts[0].redirection, PartToks(parts[1..]) + rest;
      assert RedirToks([r]) == [ModeTok(r.mode), Word(r.file)];
      Nest(RedirToks([r]), PartToks(parts[1..]), BAR, [], rest);
      var n, acc := RedirStep(s, i, m.redirs, r, tail);
      PartsRead(s, n, Simple(m.args, acc), parts[1..], rest);
      ReadInto(s, m, Simple(m.args, acc), parts, rest, SimpleAt(s, i, m));
    }
  }

  lemma {:induction false} BacksRead(s: string, i: nat, c: Cmd<Span>, n: nat, rest: seq<Tok>)
    requires i <= |s| && IsLine(s) && Words(s, c) && Lex(s, i) == Amps(n) + rest && Lead(rest) != '&'
    ensures var r := BacksAt(s, i, c); Lex(s, r.next) == rest && Text(s, r.value) == Backed(Text(s, c), n)
    decreases n
  {
    LexPeek(s, i, {'&'});
    if n > 0 {
      assert Amps(n) + rest == [AMP] + (Amps(n - 1) + rest);
      var k := LexStep(s, i, AMP, Amps(n - 1) + rest);
      BacksRead(s, k, Back(c), n - 1, rest);
    }
  }

  // How a routine's result follows from those of the routines it calls, told in tokens.

  lemma BlockStep(s: string, i: nat)
    requires i <= |s| && IsLine(s) && Lead(Lex(s, i)) == '('
    ensures i < TokenAt(s, i).next
    ensures var c := LineAt(s, TokenAt(s, i).next);
      ExecAt(s, i) ==
      if c.Panic? || Lead(Lex(s, c.next)) != ')' then Panic
      else Wrapped(s, c.value, RedirsAt(s, TokenAt(s, c.next).next, []))
  {
    LexPeek(s, i, {'('});
    var c := LineAt(s, TokenAt(s, i).next);
    if c.Done? { LexPeek(s, c.next, {')'}); }
  }

  lemma SimpleStep(s: string, i: nat)
    requires i <= |s| && IsLine(s) && Lead(Lex(s, i)) != '('
    ensures ExecAt(s, i) == Finished(s, SimpleAt(s, i, Simple([], [])))
  {
    LexPeek(s, i, {'('});
    RedirsSkip(s, i, []);
  }

  lemma PipeStep(s: string, i: nat)
    requires i <= |s| && IsLine(s) && ExecAt(s, i).Done?
    ensures var c := ExecAt(s, i);
      if Lead(Lex(s, c.next)) != '|'
      then PipeAt(s, i) == Done(c.value, SkipSpace(s, c.next)) && Lex(s, SkipSpace(s, c.next)) == Lex(s, c.next)
      else
        var d := PipeAt(s, TokenAt(s, c.next).next);
        PipeAt(s, i) == if d.Panic? then Panic else Done(Pipe(c.value, d.value), d.next)
  {
    LexPeek(s, ExecAt(s, i).next, {'|'});
  }

  lemma LineStep(s: string, i: nat)
    requires i <= |s| && IsLine(s) && PipeAt(s, i).Done?
    ensures var b := BacksAt(s, PipeAt(s, i).next, PipeAt(s, i).value);
      if Lead(Lex(s, b.next)) != ';'
      then LineAt(s, i) == Done(b.value, SkipSpace(s, b.next)) && Lex(s, SkipSpace(s, b.next)) == Lex(s, b.next)
      else
        var d := LineAt(s, TokenAt(s, b.next).next);
        LineAt(s, i) == if d.Panic? then Panic else Done(List(b.value, d.value), d.next)
  {
    LexPeek(s, BacksAt(s, PipeAt(s, i).next, PipeAt(s, i).value).next, {';'});
  }

  /** The text was read to the end, with this tree, unless a command in it has ten words. */
  ghost predicate Reads(s: string, r: Outcome<Cmd<Span>>, small: bool, tree: Cmd<string>, rest: seq<Tok>)
    requires IsLine(s) && Parsed(s, 0, r)
  {
    (r.Done? <==> small) && (r.Done? ==> Lex(s, r.next) == rest && Text(s, r.value) == tree)
  }

  lemma BlockText(s: string, c: Cmd<Span>, r: Outcome<seq<Redirection<Span>>>, rs: seq<Redirection<string>>)
    requires Words(s, c) && r.Done? && Files(s, r.value) && Named(s, r.value) == Named(s, []) + rs
    ensures Wrapped(s, c, r).Done? && Text(s, Wrapped(s, c, r).value) == Wrap(Text(s, c), rs)
  {
    WrapText(s, c, r.value);
    assert Named(s, r.value) == rs;
  }

  lemma {:induction false} GroupReads(s: string, i: nat, u: Unit, rest: seq<Tok>)
    requires i <= |s| && IsLine(s) && u.Group? && Lex(s, i) == UnitToks(u) + rest && EndsUnit(rest)
    ensures Reads(s, ExecAt(s, i), UnitSmall(u), UnitTree(u), rest)
    decreases u, 1
  {
    assert !Redirects(rest);
    var tail := RedirToks(u.redirs) + rest;
    Nest([OPEN], LineToks(u.line), CLOSE, RedirToks(u.redirs), rest);
    BlockStep(s, i);
    var n := LexStep(s, i, OPEN, LineToks(u.line) + ([CLOSE] + tail));
    LineReads(s, n, u.line, [CLOSE] + tail);
    var c := LineAt(s, n);
    if c.Done? {
      var k := LexStep(s, c.next, CLOSE, tail);
      RedirsRead(s, k, [], u.redirs, rest);
      BlockText(s, c.value, RedirsAt(s, k, []), u.redirs);
    }
  }

  lemma LeadOfParts(parts: seq<Part>, rest: seq<Tok>)
    requires EndsUnit(rest)
    ensures Lead(PartToks(parts) + rest) != '('
  {
    if parts != [] && parts[0].Into? {
      assert RedirToks([parts[0].redirection])[0] == ModeTok(parts[0].redirection.mode);
    }
  }

  lemma PlainReads(s: string, i: nat, u: Unit, rest: seq<Tok>)
    requires i <= |s| && IsLine(s) && u.Plain? && Lex(s, i) == UnitToks(u) + rest && EndsUnit(rest)
    ensures Reads(s, ExecAt(s, i), UnitSmall(u), UnitTree(u), rest)
  {
    LeadOfParts(u.parts, rest);
    SimpleStep(s, i);
    PartsRead(s, i, Simple([], []), u.parts, rest);
    var m := SimpleAt(s, i, Simple([], []));
    if m.Done? {
      WrapText(s, Exec(m.value.args), m.value.redirs);
      assert Slices(s, m.value.args) == ArgsOf(u.parts) && Named(s, m.value.redirs) == RedirsOf(u.parts);
    }
  }

  lemma TextBoth(s: string, c: Cmd<Span>, d: Cmd<Span>)
    requires Words(s, c) && Words(s, d)
    ensures Words(s, List(c, d)) && Text(s, List(c, d)) == List(Text(s, c), Text(s, d))
    ensures Words(s, Pipe(c, d)) && Text(s, Pipe(c, d)) == Pipe(Text(s, c), Text(s, d))
  {
  }

  lemma {:induction false} PipeReads(s: string, i: nat, p: Pipeline, rest: seq<Tok>)
    requires i <= |s| && IsLine(s) && Lex(s, i) == PipeToks(p) + rest && EndsPipe(rest)
    ensures Reads(s, PipeAt(s, i), PipeSmall(p), PipeTree(p), rest)
    decreases p, 3
  {
    var tail := if p.One? then rest else [BAR] + (PipeToks(p.rest) + rest);
    if p.Piped? { Nest(UnitToks(p.unit), [], BAR, PipeToks(p.rest), rest); }
    assert PipeToks(p) + rest == UnitToks(p.unit) + tail;
    if p.unit.Plain? { PlainReads(s, i, p.unit, tail); } else { GroupReads(s, i, p.unit, tail); }
    var c := ExecAt(s, i);
    if c.Done? {
      PipeStep(s, i);
      if p.Piped? {
        var n := LexStep(s, c.next, BAR, PipeToks(p.rest) + rest);
        PipeReads(s, n, p.rest, rest);
        if PipeAt(s, n).Done? { TextBoth(s, c.value, PipeAt(s, n).value); }
      }
    }
  }

  lemma LeadOfAmps(n: nat, tail: seq<Tok>)
    requires EndsPipe(tail)
    ensures EndsPipe(Amps(n) + tail)
  {
    if n == 0 { assert Amps(n) + tail == tail; }
  }

  lemma {:induction false} BackedReads(s: string, i: nat, p: Pipeline, n: nat, rest: seq<Tok>)
    requires i <= |s| && IsLine(s) && Lex(s, i) == PipeToks(p) + (Amps(n) + rest)
    requires EndsPipe(rest) && Lead(rest) != '&'
    ensures var c := PipeAt(s, i);
      Reads(s, if c.Panic? then Panic else BacksAt(s, c.next, c.value), PipeSmall(p), Backed(PipeTree(p), n), rest)
    decreases p, 4
  {
    LeadOfAmps(n, rest);
    PipeReads(s, i, p, Amps(n) + rest);
    var c := PipeAt(s, i);
    if c.Done? { BacksRead(s, c.next, c.value, n, rest); }
  }

  lemma LineEnds(s: string, i: nat, l: Line, rest: seq<Tok>)
    requires i <= |s| && IsLine(s) && l.Last? && EndsLine(rest)
    requires var c := PipeAt(s, i);
      Reads(s, if c.Panic? then Panic else BacksAt(s, c.next, c.value), PipeSmall(l.pipe),
            Backed(PipeTree(l.pipe), l.amps), rest)
    ensures Reads(s, LineAt(s, i), LineSmall(l), LineTree(l), rest)
  {
    if PipeAt(s, i).Done? { LineStep(s, i); }
  }

  lemma LineJoins(s: string, i: nat, l: Line, rest: seq<Tok>, n: nat)
    requires i <= |s| && IsLine(s) && l.Then? && PipeAt(s, i).Done? && PipeSmall(l.pipe)
    requires var b := BacksAt(s, PipeAt(s, i).next, PipeAt(s, i).value);
      && Lead(Lex(s, b.next)) == ';' && n == TokenAt(s, b.next).next
      && Text(s, b.value) == Backed(PipeTree(l.pipe), l.amps)
    requires Reads(s, LineAt(s, n), LineSmall(l.rest), LineTree(l.rest), rest)
    ensures Reads(s, LineAt(s, i), LineSmall(l), LineTree(l), rest)
  {
    LineStep(s, i);
    if LineAt(s, n).Done? {
      TextBoth(s, BacksAt(s, PipeAt(s, i).next, PipeAt(s, i).value).value, LineAt(s, n).value);
    }
  }

  lemma {:induction false} LineReads(s: string, i: nat, l: Line, rest: seq<Tok>)
    requires i <= |s| && IsLine(s) && Lex(s, i) == LineToks(l) + rest && EndsLine(rest)
    ensures Reads(s, LineAt(s, i), LineSmall(l), LineTree(l), rest)
    decreases l, 5
  {
    if l.Last? {
      Nest(PipeToks(l.pipe), Amps(l.amps), SEMI, [], rest);
      BackedReads(s, i, l.pipe, l.amps, rest);
      LineEnds(s, i, l, rest);
    } else {
      var more := LineToks(l.rest) + rest;
      Nest(PipeToks(l.pipe), Amps(l.amps), SEMI, LineToks(l.rest), rest);
      BackedReads(s, i, l.pipe, l.amps, [SEMI] + more);
      var c := PipeAt(s, i);
      if c.Done? {
        var n := LexStep(s, BacksAt(s, c.next, c.value).next, SEMI, more);
        LineReads(s, n, l.rest, rest);
        LineJoins(s, i, l, rest, n);
      }
    }
  }

  // ---------------------------------------------------------------- every accepted line is one of the grammar

  lemma PartsCons(p: Part, more: seq<Part>)
    ensures PartToks([p] + more) == (if p.Arg? then [Word(p.word)] else RedirToks([p.redirection])) + PartToks(more)
    ensures ArgsOf([p] + more) == if p.Arg? then [p.word] + ArgsOf(more) else ArgsOf(more)
    ensures RedirsOf([p] + more) == if p.Arg? then RedirsOf(more) else [p.redirection] + RedirsOf(more)
  {
    assert ([p] + more)[1..] == more;
  }

  lemma RedirTokens(s: string, i: nat) returns (op: Token, f: Token)
    requires i <= |s| && IsLine(s) && Redirects(Lex(s, i))
    ensures op == TokenAt(s, i) && f == TokenAt(s, op.next)
    ensures f.kind == 'a' ==> Lex(s, i) == [ModeTok(ModeOf(op.kind)), Word(Slice(s, f.span))] + Lex(s, f.next)
  {
    op := TokenAt(s, i);
    f := TokenAt(s, op.next);
    if f.kind == 'a' {
      assert Lex(s, op.next) == [Word(Slice(s, f.span))] + Lex(s, f.next);
      assert Lex(s, i) == [ModeTok(ModeOf(op.kind))] + Lex(s, op.next);
    }
  }

  /** A redirection that was read. */
  lemma RedirWritten(s: string, i: nat, acc: seq<Redirection<Span>>)
    returns (r: Redirection<string>, n: nat, acc': seq<Redirection<Span>>)
    requires i <= |s| && IsLine(s) && Files(s, acc) && Redirects(Lex(s, i)) && RedirsAt(s, i, acc).Done?
    ensures i < n <= |s| && Lex(s, i) == RedirToks([r]) + Lex(s, n)
    ensures Files(s, acc') && Named(s, acc') == Named(s, acc) + [r] && RedirsAt(s, i, acc) == RedirsAt(s, n, acc')
  {
    LexPeek(s, i, {'<', '>'});
    var op, f := RedirTokens(s, i);
    r, n := Redirection(Slice(s, f.span), ModeOf(op.kind)), f.next;
    acc' := acc + [Redirection(f.span, r.mode)];
    assert RedirToks([r]) == [ModeTok(r.mode), Word(r.file)];
  }

  lemma {:induction false} RedirsWritten(s: string, i: nat, acc: seq<Redirection<Span>>)
    returns (rs: seq<Redirection<string>>)
    requires i <= |s| && IsLine(s) && Files(s, acc) && RedirsAt(s, i, acc).Done?
    ensures var r := RedirsAt(s, i, acc);
      Lex(s, i) == RedirToks(rs) + Lex(s, r.next) && Named(s, r.value) == Named(s, acc) + rs
    decreases |s| - i
  {
    if Redirects(Lex(s, i)) {
      var r, n, acc' := RedirWritten(s, i, acc);
      var more := RedirsWritten(s, n, acc');
      rs := [r] + more;
      Regroup(Named(s, acc), rs);
      assert RedirToks(rs) == RedirToks([r]) + RedirToks(more);
      Nest(RedirToks([r]), RedirToks(more), BAR, [], Lex(s, RedirsAt(s, i, acc).next));
    } else {
      RedirsEnd(s, i, acc);
      rs := [];
    }
  }

  /** The parts that were read from i on, behind those of m. */
  ghost predicate WroteParts(s: string, i: nat, m: Simple, parts: seq<Part>, r: Outcome<Simple>)
    requires i <= |s| && IsLine(s) && SimpleWords(s, m) && Ahead(s, 0, r) && (r.Done? ==> SimpleWords(s, r.value))
  {
    && r.Done? && Lex(s, i) == PartToks(parts) + Lex(s, r.next)
    && Slices(s, r.value.args) == Slices(s, m.args) + ArgsOf(parts)
    && Named(s, r.value.redirs) == Named(s, m.redirs) + RedirsOf(parts)
  }

  lemma WroteNone(s: string, i: nat, m: Simple, r: Outcome<Simple>)
    requires i <= |s| && IsLine(s) && SimpleWords(s, m) && r.Done? && r.value == m && r.next <= |s|
    requires Lex(s, r.next) == Lex(s, i)
    ensures WroteParts(s, i, m, [], r)
  {
  }

  lemma WroteArg(s: string, i: nat, n: nat, m: Simple, m': Simple, w: string, more: seq<Part>, r: Outcome<Simple>)
    requires i <= |s| && n <= |s| && IsLine(s) && SimpleWords(s, m) && SimpleWords(s, m') && Ahead(s, 0, r)
    requires r.Done? ==> SimpleWords(s, r.value)
    requires Lex(s, i) == [Word(w)] + Lex(s, n)
    requires Slices(s, m'.args) == Slices(s, m.args) + [w] && m'.redirs == m.redirs
    requires WroteParts(s, n, m', more, r)
    ensures WroteParts(s, i, m, [Arg(w)] + more, r)
  {
    var parts := [Arg(w)] + more;
    PartsCons(Arg(w), more);
    Regroup(Slices(s, m.args), ArgsOf(parts));
    Nest([Word(w)], PartToks(more), BAR, [], Lex(s, r.next));
  }

  lemma WroteInto(s: string, i: nat, n: nat, m: Simple, m': Simple, x: Redirection<string>, more: seq<Part>,
                  r: Outcome<Simple>)
    requires i <= |s| && n <= |s| && IsLine(s) && SimpleWords(s, m) && SimpleWords(s, m') && Ahead(s, 0, r)
    requires r.Done? ==> SimpleWords(s, r.value)
    requires Lex(s, i) == RedirToks([x]) + Lex(s, n) && m'.args == m.args
    requires Named(s, m'.redirs) == Named(s, m.redirs) + [x] && WroteParts(s, n, m', more, r)
    ensures WroteParts(s, i, m, [Into(x)] + more, r)
  {
    var parts := [Into(x)] + more;
    PartsCons(Into(x), more);
    Regroup(Named(s, m.redirs), RedirsOf(parts));
    Nest(RedirToks([x]), PartToks(more), BAR, [], Lex(s, r.next));
  }

  /** A word that was read, or none. */
  lemma WordRead(s: string, i: nat, m: Simple) returns (word: bool, m': Simple)
    requires i <= |s| && IsLine(s) && SimpleWords(s, m) && ArgsAt(s, i, m).Done?
    ensures var t := TokenAt(s, i); var r := ArgsAt(s, i, m);
      if word
      then
        && t.kind == 'a' && i < t.next && Lex(s, i) == [Word(Slice(s, t.span))] + Lex(s, t.next)
        && m' == Simple(m.args + [t.span], m.redirs) && SimpleWords(s, m') && r == SimpleAt(s, t.next, m')
      else r.value == m && Lex(s, r.next) == Lex(s, i)
  {
    LexPeek(s, i, {'|', ')', '&', ';'});
    var t := TokenAt(s, i);
    word, m' := Lead(Lex(s, i)) == 'a', m;
    if word { m' := Simple(m.args + [t.span], m.redirs); }
  }

  lemma {:induction false} ArgsWritten(s: string, i: nat, m: Simple) returns (parts: seq<Part>)
    requires i <= |s| && IsLine(s) && SimpleWords(s, m) && ArgsAt(s, i, m).Done?
    ensures WroteParts(s, i, m, parts, ArgsAt(s, i, m))
    decreases |s| - i, 0
  {
    var word, m' := WordRead(s, i, m);
    if word {
      var t := TokenAt(s, i);
      var more := SimpleWritten(s, t.next, m');
      parts := [Arg(Slice(s, t.span))] + more;
      WroteArg(s, i, t.next, m, m', Slice(s, t.span), more, ArgsAt(s, i, m));
    } else {
      parts := [];
      WroteNone(s, i, m, ArgsAt(s, i, m));
    }
  }

  lemma {:induction false} SimpleWritten(s: string, i: nat, m: Simple) returns (parts: seq<Part>)
    requires i <= |s| && IsLine(s) && SimpleWords(s, m) && SimpleAt(s, i, m).Done?
    ensures WroteParts(s, i, m, parts, SimpleAt(s, i, m))
    decreases |s| - i, 1
  {
    if Redirects(Lex(s, i)) {
      var r, n, acc' := RedirWritten(s, i, m.redirs);
      var m' := Simple(m.args, acc');
      var more := SimpleWritten(s, n, m');
      parts := [Into(r)] + more;
      WroteInto(s, i, n, m, m', r, more, SimpleAt(s, i, m));
    } else {
      NoRedirs(s, i, m);
      parts := ArgsWritten(s, i, m);
    }
  }

  lemma LexLead(s: string, i: nat, t: Tok) returns (n: nat)
    requires i <= |s| && IsLine(s) && Lead(Lex(s, i)) == Sign(t)
    requires t == BAR || t == AMP || t == SEMI || t == OPEN || t == CLOSE
    ensures n == TokenAt(s, i).next && i < n <= |s| && Lex(s, i) == [t] + Lex(s, n)
  {
    n := TokenAt(s, i).next;
  }

  lemma {:induction false} BacksWritten(s: string, i: nat, c: Cmd<Span>) returns (n: nat)
    requires i <= |s| && IsLine(s) && Words(s, c)
    ensures var r := BacksAt(s, i, c);
      Lex(s, i) == Amps(n) + Lex(s, r.next) && Text(s, r.value) == Backed(Text(s, c), n)
    decreases |s| - i
  {
    LexPeek(s, i, {'&'});
    if Lead(Lex(s, i)) == '&' {
      var m := LexLead(s, i, AMP);
      var k := BacksWritten(s, m, Back(c));
      n := k + 1;
      Nest([AMP], Amps(k), BAR, [], Lex(s, BacksAt(s, m, Back(c)).next));
    } else {
      n := 0;
    }
  }

  /** What was read from i on is this text, with this tree. */
  ghost predicate Wrote(s: string, i: nat, r: Outcome<Cmd<Span>>, ts: seq<Tok>, small: bool, tree: Cmd<string>)
    requires i <= |s| && IsLine(s) && Parsed(s, 0, r)
  {
    r.Done? && Lex(s, i) == ts + Lex(s, r.next) && small && Text(s, r.value) == tree
  }

  // The tokens of a group, a pipeline and a line, put together from those of their pieces.

  lemma GroupTokens(l: Line, rs: seq<Redirection<string>>, t0: seq<Tok>, t1: seq<Tok>, t2: seq<Tok>, t3: seq<Tok>,
                    rest: seq<Tok>)
    requires t0 == [OPEN] + t1 && t1 == LineToks(l) + t2 && t2 == [CLOSE] + t3 && t3 == RedirToks(rs) + rest
    ensures t0 == UnitToks(Group(l, rs)) + rest
  {
    Nest([OPEN], LineToks(l), CLOSE, RedirToks(rs), rest);
  }

  lemma PipedTokens(u: Unit, p: Pipeline, t0: seq<Tok>, t1: seq<Tok>, t2: seq<Tok>, rest: seq<Tok>)
    requires t0 == UnitToks(u) + t1 && t1 == [BAR] + t2 && t2 == PipeToks(p) + rest
    ensures t0 == PipeToks(Piped(u, p)) + rest
  {
    Nest(UnitToks(u), [], BAR, PipeToks(p), rest);
    assert UnitToks(u) + [] == UnitToks(u);
  }

  lemma LineTokens(p: Pipeline, n: nat, l: Line, t0: seq<Tok>, t1: seq<Tok>, t2: seq<Tok>, t3: seq<Tok>, rest: seq<Tok>)
    requires t0 == PipeToks(p) + t1 && t1 == Amps(n) + t2
    ensures t0 == LineToks(Last(p, n)) + t2
    ensures t2 == [SEMI] + t3 && t3 == LineToks(l) + rest ==> t0 == LineToks(Then(p, n, l)) + rest
  {
    Nest(PipeToks(p), Amps(n), SEMI, LineToks(l), rest);
    Nest(PipeToks(p), Amps(n), SEMI, [], t2);
  }

  lemma {:induction false} PlainWritten(s: string, i: nat) returns (u: Unit)
    requires i <= |s| && IsLine(s) && ExecAt(s, i).Done? && Lead(Lex(s, i)) != '('
    ensures Wrote(s, i, ExecAt(s, i), UnitToks(u), UnitSmall(u), UnitTree(u))
  {
    SimpleStep(s, i);
    var m := SimpleAt(s, i, Simple([], []));
    var parts := SimpleWritten(s, i, Simple([], []));
    u := Plain(parts);
    WrapText(s, Exec(m.value.args), m.value.redirs);
    assert Slices(s, m.value.args) == ArgsOf(parts) && Named(s, m.value.redirs) == RedirsOf(parts);
  }

  lemma {:induction false} GroupWritten(s: string, i: nat) returns (u: Unit)
    requires i <= |s| && IsLine(s) && ExecAt(s, i).Done? && Lead(Lex(s, i)) == '('
    ensures Wrote(s, i, ExecAt(s, i), UnitToks(u), UnitSmall(u), UnitTree(u))
    decreases |s| - i, 0
  {
    BlockStep(s, i);
    var n := LexLead(s, i, OPEN);
    var c := LineAt(s, n);
    var l := LineWritten(s, n);
    var k := LexLead(s, c.next, CLOSE);
    var rs := RedirsWritten(s, k, []);
    var r := RedirsAt(s, k, []);
    u := Group(l, rs);
    BlockText(s, c.value, r, rs);
    GroupTokens(l, rs, Lex(s, i), Lex(s, n), Lex(s, c.next), Lex(s, k), Lex(s, r.next));
  }

  lemma {:induction false} PipeWritten(s: string, i: nat) returns (p: Pipeline)
    requires i <= |s| && IsLine(s) && PipeAt(s, i).Done?
    ensures Wrote(s, i, PipeAt(s, i), PipeToks(p), PipeSmall(p), PipeTree(p))
    decreases |s| - i, 2
  {
    var u;
    if Lead(Lex(s, i)) == '(' { u := GroupWritten(s, i); } else { u := PlainWritten(s, i); }
    var c := ExecAt(s, i);
    PipeStep(s, i);
    if Lead(Lex(s, c.next)) == '|' {
      var n := LexLead(s, c.next, BAR);
      var q := PipeWritten(s, n);
      p := Piped(u, q);
      PipedTokens(u, q, Lex(s, i), Lex(s, c.next), Lex(s, n), Lex(s, PipeAt(s, n).next));
      TextBoth(s, c.value, PipeAt(s, n).value);
    } else {
      p := One(u);
    }
  }

  lemma {:induction false} LineWritten(s: string, i: nat) returns (l: Line)
    requires i <= |s| && IsLine(s) && LineAt(s, i).Done?
    ensures Wrote(s, i, LineAt(s, i), LineToks(l), LineSmall(l), LineTree(l))
    decreases |s| - i, 3
  {
    var c := PipeAt(s, i);
    var p := PipeWritten(s, i);
    var b := BacksAt(s, c.next, c.value);
    var n := BacksWritten(s, c.next, c.value);
    LineStep(s, i);
    if Lead(Lex(s, b.next)) == ';' {
      var k := LexLead(s, b.next, SEMI);
      var more := LineWritten(s, k);
      l := Then(p, n, more);
      LineTokens(p, n, more, Lex(s, i), Lex(s, c.next), Lex(s, b.next), Lex(s, k), Lex(s, LineAt(s, k).next));
      TextBoth(s, b.value, LineAt(s, k).value);
    } else {
      l := Last(p, n);
      LineTokens(p, n, l, Lex(s, i), Lex(s, c.next), Lex(s, b.next), [], []);
    }
  }

  /**
    * The lines that are accepted are those whose tokens the grammar gives, with no command of ten words, and
    * the tree is the one the grammar gives.
    */
  lemma ParseExact(s: string)
    requires IsLine(s)
    ensures CommandOf(s).Done? <==> exists l :: LineToks(l) == Lex(s, 0) && LineSmall(l)
    ensures forall l | LineToks(l) == Lex(s, 0) && LineSmall(l) ::
      CommandOf(s).Done? && Text(s, CommandOf(s).value) == LineTree(l)
  {
    var c := LineAt(s, 0);
    if CommandOf(s).Done? {
      var l := LineWritten(s, 0);
      LexSkip(s, c.next);
      assert LineToks(l) + [] == LineToks(l);
    }
    forall l | LineToks(l) == Lex(s, 0) && LineSmall(l)
      ensures CommandOf(s).Done? && Text(s, CommandOf(s).value) == LineTree(l)
    {
      assert LineToks(l) + [] == LineToks(l);
      LineReads(s, 0, l, []);
      LexNone(s, c.next);
    }
  }

  lemma LexNone(s: string, i: nat)
    requires i <= |s| && IsLine(s)
    ensures Lex(s, i) == [] <==> SkipSpace(s, i) == |s|
  {
  }

  // ---------------------------------------------------------------- writing a tree

  predicate IsSimple(t: Cmd<string>) {
    t.Exec? || (t.Redir? && IsSimple(t.cmd))
  }

  function Args(words: seq<string>): seq<Part> {
    if words == [] then [] else [Arg(words[0])] + Args(words[1..])
  }

  function BareParts(t: Cmd<string>): seq<Part>
    requires IsSimple(t)
  {
    if t.Exec? then Args(t.args) else BareParts(t.cmd) + [Into(Redirection(t.file, t.mode))]
  }

  /** A tree as a line with no more parentheses than needed: simple commands stand bare, a pipeline does to the
      right of a bar, and what is put in the background does before its ampersand and before a semicolon. */
  function BareLine(t: Cmd<string>): Line
    decreases t, 3
  {
    if t.List? then Then(BareBack(t.left).0, BareBack(t.left).1, BareLine(t.right))
    else Last(BareBack(t).0, BareBack(t).1)
  }

  function BareBack(t: Cmd<string>): (Pipeline, nat)
    decreases t, if t.List? then 6 else 2
  {
    if t.Back? then (BareBack(t.cmd).0, BareBack(t.cmd).1 + 1) else (BarePipe(t), 0)
  }

  function BarePipe(t: Cmd<string>): Pipeline
    decreases t, if t.List? || t.Back? then 5 else 1
  {
    if t.Pipe? then Piped(BareUnit(t.left), BarePipe(t.right)) else One(BareUnit(t))
  }

  function BareUnit(t: Cmd<string>): (u: Unit)
    ensures u.Plain? <==> IsSimple(t)
    decreases t, if t.Exec? || t.Redir? then 0 else 4
  {
    if IsSimple(t) then Plain(BareParts(t))
    else if t.Redir? then
      var g := BareUnit(t.cmd);
      Group(g.line, g.redirs + [Redirection(t.file, t.mode)])
    else Group(BareLine(t), [])
  }

  predicate ArePlain(words: seq<string>) {
    forall w | w in words :: IsPlainWord(w)
  }

  /** Trees whose words are all plain. */
  predicate IsPlain(t: Cmd<string>) {
    match t
    case Exec(args) => ArePlain(args)
    case Redir(cmd, file, _) => IsPlain(cmd) && IsPlainWord(file)
    case Pipe(left, right) => IsPlain(left) && IsPlain(right)
    case List(left, right) => IsPlain(left) && IsPlain(right)
    case Back(cmd) => IsPlain(cmd)
  }

  /** Trees in which every command has at most nine words. */
  predicate IsSmall(t: Cmd<string>) {
    match t
    case Exec(args) => |args| < MAXARGS
    case Redir(cmd, _, _) => IsSmall(cmd)
    case Pipe(left, right) => IsSmall(left) && IsSmall(right)
    case List(left, right) => IsSmall(left) && IsSmall(right)
    case Back(cmd) => IsSmall(cmd)
  }

  lemma {:induction false} ArgsBack(words: seq<string>)
    ensures ArgsOf(Args(words)) == words && RedirsOf(Args(words)) == []
    ensures ArePlain(words) ==> AreToks(PartToks(Args(words)))
  {
    if words != [] {
      ArgsBack(words[1..]);
      PartsCons(Arg(words[0]), Args(words[1..]));
      if ArePlain(words) { assert words[0] in words && forall w | w in words[1..] :: w in words; }
    }
  }

  ghost predicate SnocIs(parts: seq<Part>, r: Redirection<string>) {
    && ArgsOf(parts + [Into(r)]) == ArgsOf(parts) && RedirsOf(parts + [Into(r)]) == RedirsOf(parts) + [r]
    && PartToks(parts + [Into(r)]) == PartToks(parts) + RedirToks([r])
  }

  lemma SnocStep(p: Part, more: seq<Part>, r: Redirection<string>)
    requires SnocIs(more, r)
    ensures SnocIs([p] + more, r)
  {
    PartsCons(p, more);
    PartsCons(p, more + [Into(r)]);
    assert [p] + more + [Into(r)] == [p] + (more + [Into(r)]);
    if p.Arg? {
      Nest([Word(p.word)], PartToks(more), BAR, [], RedirToks([r]));
    } else {
      Nest(RedirToks([p.redirection]), PartToks(more), BAR, [], RedirToks([r]));
      Nest([p.redirection], RedirsOf(more), r, [], [r]);
    }
  }

  lemma {:induction false} PartsSnoc(parts: seq<Part>, r: Redirection<string>)
    ensures SnocIs(parts, r)
  {
    if parts == [] {
      PartsCons(Into(r), []);
      assert parts + [Into(r)] == [Into(r)] + [];
    } else {
      PartsSnoc(parts[1..], r);
      SnocStep(parts[0], parts[1..], r);
      assert [parts[0]] + parts[1..] == parts;
    }
  }

  lemma WrapSnoc(c: Cmd<string>, rs: seq<Redirection<string>>, r: Redirection<string>)
    ensures Wrap(c, rs + [r]) == Redir(Wrap(c, rs), r.file, r.mode)
  {
    assert (rs + [r])[..|rs|] == rs;
  }

  lemma {:induction false} PartsBack(t: Cmd<string>)
    requires IsSimple(t)
    ensures var parts := BareParts(t); Wrap(Exec(ArgsOf(parts)), RedirsOf(parts)) == t
    ensures |ArgsOf(BareParts(t))| < MAXARGS <==> IsSmall(t)
    ensures IsPlain(t) ==> AreToks(PartToks(BareParts(t)))
    decreases t
  {
    if t.Exec? {
      ArgsBack(t.args);
    } else {
      var parts, r := BareParts(t.cmd), Redirection(t.file, t.mode);
      PartsBack(t.cmd);
      PartsSnoc(parts, r);
      WrapSnoc(Exec(ArgsOf(parts)), RedirsOf(parts), r);
      assert RedirToks([r]) == [ModeTok(r.mode), Word(r.file)];
    }
  }

  lemma {:induction false} BackedOut(t: Cmd<string>, n: nat)
    ensures Backed(t, n + 1) == Back(Backed(t, n))
    decreases n
  {
    if n > 0 { BackedOut(Back(t), n - 1); }
  }

  lemma {:induction false} AmpsSnoc(n: nat)
    ensures Amps(n + 1) == Amps(n) + [AMP] && AreToks(Amps(n))
  {
    if n > 0 { AmpsSnoc(n - 1); }
  }

  lemma {:induction false} RedirsSnoc(rs: seq<Redirection<string>>, r: Redirection<string>)
    ensures RedirToks(rs + [r]) == RedirToks(rs) + RedirToks([r])
  {
    if rs == [] {
      assert rs + [r] == [r];
    } else {
      RedirsSnoc(rs[1..], r);
      assert (rs + [r])[1..] == rs[1..] + [r];
      Nest([ModeTok(rs[0].mode), Word(rs[0].file)], RedirToks(rs[1..]), BAR, [], RedirToks([r]));
    }
  }

  lemma GroupSnoc(u: Unit, r: Redirection<string>)
    requires u.Group?
    ensures var g := Group(u.line, u.redirs + [r]);
      UnitTree(g) == Redir(UnitTree(u), r.file, r.mode) && UnitToks(g) == UnitToks(u) + [ModeTok(r.mode), Word(r.file)]
  {
    WrapSnoc(LineTree(u.line), u.redirs, r);
    RedirsSnoc(u.redirs, r);
    assert RedirToks([r]) == [ModeTok(r.mode), Word(r.file)];
    Nest([OPEN] + LineToks(u.line) + [CLOSE], RedirToks(u.redirs), BAR, [], RedirToks([r]));
  }

  /** A tree that is written down stands for itself. */
  lemma {:induction false} UnitBack(t: Cmd<string>)
    ensures UnitTree(BareUnit(t)) == t && (UnitSmall(BareUnit(t)) <==> IsSmall(t))
    ensures IsPlain(t) ==> AreToks(UnitToks(BareUnit(t)))
    decreases t, if t.Exec? || t.Redir? then 0 else 4
  {
    if IsSimple(t) {
      PartsBack(t);
    } else if t.Redir? {
      UnitBack(t.cmd);
      GroupSnoc(BareUnit(t.cmd), Redirection(t.file, t.mode));
    } else {
      LineBack(t);
    }
  }

  lemma {:induction false} PipeBack(t: Cmd<string>)
    ensures PipeTree(BarePipe(t)) == t && (PipeSmall(BarePipe(t)) <==> IsSmall(t))
    ensures IsPlain(t) ==> AreToks(PipeToks(BarePipe(t)))
    decreases t, if t.List? || t.Back? then 5 else 1
  {
    if t.Pipe? {
      UnitBack(t.left);
      PipeBack(t.right);
    } else {
      UnitBack(t);
    }
  }

  lemma {:induction false} BackBack(t: Cmd<string>)
    ensures var (p, n) := BareBack(t);
      && Backed(PipeTree(p), n) == t && (PipeSmall(p) <==> IsSmall(t))
      && (IsPlain(t) ==> AreToks(PipeToks(p)))
    decreases t, if t.List? then 6 else 2
  {
    if t.Back? {
      var (p, n) := BareBack(t.cmd);
      BackBack(t.cmd);
      BackedOut(PipeTree(p), n);
    } else {
      PipeBack(t);
    }
  }

  lemma {:induction false} LineBack(t: Cmd<string>)
    ensures LineTree(BareLine(t)) == t && (LineSmall(BareLine(t)) <==> IsSmall(t))
    ensures IsPlain(t) ==> AreToks(LineToks(BareLine(t)))
    decreases t, 3
  {
    if t.List? {
      BackBack(t.left);
      LineBack(t.right);
      AmpsSnoc(BareBack(t.left).1);
    } else {
      BackBack(t);
      AmpsSnoc(BareBack(t).1);
    }
  }

  lemma {:induction false} SpellIsLine(gaps: seq<string>, ts: seq<Tok>)
    requires Spaced(gaps, ts) && AreToks(ts)
    ensures IsLine(Spell(gaps, ts))
    decreases |ts|
  {
    if ts != [] {
      SpacedTail(gaps, ts);
      SpellIsLine(gaps[1..], ts[1..]);
    }
  }

  /**
    * Parsing inverts printing.  Any tree of plain words, written with parentheses only where the grammar needs
    * them and with any space around its tokens, is accepted exactly when no command in it has ten words or
    * more, and then it parses to that very tree.
    */
  lemma ParseInverts(t: Cmd<string>, gaps: seq<string>)
    requires IsPlain(t) && Spaced(gaps, LineToks(BareLine(t)))
    ensures var s := Spell(gaps, LineToks(BareLine(t)));
      && IsLine(s) && (CommandOf(s).Done? <==> IsSmall(t))
      && (IsSmall(t) ==> Text(s, CommandOf(s).value) == t)
  {
    var l := BareLine(t);
    var ts := LineToks(l);
    var s := Spell(gaps, ts);
    LineBack(t);
    SpellIsLine(gaps, ts);
    assert s[0..] == s && ts + [] == ts;
    LexSpell(s, 0, gaps, ts);
    LineReads(s, 0, l, []);
    if IsSmall(t) { LexNone(s, LineAt(s, 0).next); }
  }
}

/**
  * The command parser of user/sh.c.  A line is given without its terminating NUL; a position of the
  * cursor runs from 0 to its length, and the character at its length reads as NUL.
  */
module Shell {
  import opened Common

  const MAXARGS := 10

  predicate IsSpace(c: char) {
    c == ' ' || c == '\t' || c == '\r' || c == '\n' || c == '\U{0B}'
  }

  predicate IsSymbol(c: char) {
    c == '<' || c == '|' || c == '>' || c == '&' || c == ';' || c == '(' || c == ')'
  }

  predicate IsWordChar(c: char) {
    c != '\0' && !IsSpace(c) && !IsSymbol(c)
  }

  predicate IsLine(s: string) {
    '\0' !in s
  }

  /** What the cursor points at. */
  function At(s: string, i: nat): char {
    if i < |s| then s[i] else '\0'
  }

  // ---------------------------------------------------------------- trees

  /**
    * The three redirections: < opens descriptor 0 with O_RDONLY, > opens descriptor 1 with
    * O_WRONLY|O_CREATE|O_TRUNC and >> the same one without O_TRUNC.
    */
  datatype Mode = Input | Output | Append

  /** A command tree whose words are either spans of the line or the strings they stand for. */
  datatype Cmd<W> =
    | Exec(args: seq<W>)
    | Redir(cmd: Cmd<W>, file: W, mode: Mode)
    | Pipe(left: Cmd<W>, right: Cmd<W>)
    | List(left: Cmd<W>, right: Cmd<W>)
    | Back(cmd: Cmd<W>)

  /** A token's first character and the one after its last. */
  datatype Span = Span(q: nat, eq: nat)

  datatype Redirection<W> = Redirection(file: W, mode: Mode)

  /** Redirections wrapped round a command: the first one scanned ends up innermost. */
  function Wrap<W>(c: Cmd<W>, rs: seq<Redirection<W>>): Cmd<W> {
    if rs == [] then c
    else
      var last := rs[|rs| - 1];
      Redir(Wrap(c, rs[..|rs| - 1]), last.file, last.mode)
  }

  /** A span that is a whole word of the line. */
  predicate IsWord(s: string, w: Span) {
    w.q < w.eq <= |s| && WordEnd(s, w.q) == w.eq
  }

  predicate Words(s: string, c: Cmd<Span>) {
    match c
    case Exec(args) => |args| < MAXARGS && forall w | w in args :: IsWord(s, w)
    case Redir(cmd, file, _) => Words(s, cmd) && IsWord(s, file)
    case Pipe(left, right) => Words(s, left) && Words(s, right)
    case List(left, right) => Words(s, left) && Words(s, right)
    case Back(cmd) => Words(s, cmd)
  }

  predicate Files(s: string, rs: seq<Redirection<Span>>) {
    forall r | r in rs :: IsWord(s, r.file)
  }

  lemma WrapWords(s: string, c: Cmd<Span>, rs: seq<Redirection<Span>>)
    requires Words(s, c) && Files(s, rs)
    ensures Words(s, Wrap(c, rs))
  {
    if rs != [] {
      assert rs[|rs| - 1] in rs;
      WrapWords(s, c, rs[..|rs| - 1]);
    }
  }

  // ---------------------------------------------------------------- tokens

  function SkipSpace(s: string, i: nat): (r: nat)
    requires i <= |s|
    ensures i <= r <= |s| && (r < |s| ==> !IsSpace(s[r]))
    ensures i == |s| || !IsSpace(s[i]) ==> r == i
    decreases |s| - i
  {
    if i < |s| && IsSpace(s[i]) then SkipSpace(s, i + 1) else i
  }

  function WordEnd(s: string, i: nat): (r: nat)
    requires i <= |s|
    ensures i <= r <= |s| && (i < |s| && IsWordChar(s[i]) ==> i < r)
    decreases |s| - i
  {
    if i < |s| && IsWordChar(s[i]) then WordEnd(s, i + 1) else i
  }

  lemma WordEndIs(s: string, i: nat, e: nat)
    requires i <= e <= |s|
    requires forall k | i <= k < e :: IsWordChar(s[k])
    requires e < |s| ==> !IsWordChar(s[e])
    ensures WordEnd(s, i) == e
    decreases e - i
  {
    if i < e {
      WordEndIs(s, i + 1, e);
    }
  }

  /** A token's kind as gettoken returns it: NUL, a symbol, '+' for >> and 'a' for a word. */
  datatype Token = Token(kind: char, span: Span, next: nat)

  function TokenAt(s: string, i: nat): (t: Token)
    requires i <= |s| && IsLine(s)
    ensures i <= t.span.q <= t.span.eq <= t.next <= |s|
    ensures t.kind == 'a' ==> IsWord(s, t.span)
    ensures t.kind != '\0' ==> i < t.next
  {
    var q := SkipSpace(s, i);
    var eq :=
      if q == |s| then q
      else if s[q] == '>' && At(s, q + 1) == '>' then q + 2
      else if IsSymbol(s[q]) then q + 1
      else WordEnd(s, q);
    var kind :=
      if q == |s| then '\0'
      else if s[q] == '>' && At(s, q + 1) == '>' then '+'
      else if IsSymbol(s[q]) then s[q]
      else 'a';
    Token(kind, Span(q, eq), SkipSpace(s, eq))
  }

  predicate Peeks(s: string, i: nat, toks: set<char>)
    requires i <= |s|
  {
    i < |s| && s[i] in toks
  }

  // ---------------------------------------------------------------- the grammar as a function

  /** A parse that ends at a position, or one that ends in panic. */
  datatype Outcome<T> = Done(value: T, next: nat) | Panic

  predicate Ahead<T>(s: string, i: nat, r: Outcome<T>) {
    r.Done? ==> i <= r.next <= |s|
  }

  predicate Parsed(s: string, i: nat, r: Outcome<Cmd<Span>>) {
    Ahead(s, i, r) && (r.Done? ==> Words(s, r.value))
  }

  function ModeOf(kind: char): Mode {
    if kind == '<' then Input else if kind == '>' then Output else Append
  }

  /** Redirections from i on, after those of acc. */
  function RedirsAt(s: string, i: nat, acc: seq<Redirection<Span>>): (r: Outcome<seq<Redirection<Span>>>)
    requires i <= |s| && IsLine(s) && Files(s, acc)
    ensures Ahead(s, i, r) && (r.Done? ==> Files(s, r.value))
    decreases |s| - i
  {
    var j := SkipSpace(s, i);
    if !Peeks(s, j, {'<', '>'}) then Done(acc, j)
    else
      var op := TokenAt(s, j);
      var f := TokenAt(s, op.next);
      if f.kind != 'a' then Panic
      else RedirsAt(s, f.next, acc + [Redirection(f.span, ModeOf(op.kind))])
  }

  datatype Simple = Simple(args: seq<Span>, redirs: seq<Redirection<Span>>)

  predicate SimpleWords(s: string, m: Simple) {
    |m.args| < MAXARGS && (forall w | w in m.args :: IsWord(s, w)) && Files(s, m.redirs)
  }

  /** Redirections and then words of a simple command from i on, after those of m. */
  function SimpleAt(s: string, i: nat, m: Simple): (r: Outcome<Simple>)
    requires i <= |s| && IsLine(s) && SimpleWords(s, m)
    ensures Ahead(s, i, r) && (r.Done? ==> SimpleWords(s, r.value))
    decreases |s| - i, 1
  {
    var rs := RedirsAt(s, i, m.redirs);
    if rs.Panic? then Panic else ArgsAt(s, rs.next, Simple(m.args, rs.value))
  }

  /** Words, each followed by redirections, of a simple command from i on, after those of m. */
  function ArgsAt(s: string, i: nat, m: Simple): (r: Outcome<Simple>)
    requires i <= |s| && IsLine(s) && SimpleWords(s, m)
    ensures Ahead(s, i, r) && (r.Done? ==> SimpleWords(s, r.value))
    decreases |s| - i, 0
  {
    var j := SkipSpace(s, i);
    if Peeks(s, j, {'|', ')', '&', ';'}) then Done(m, j)
    else
      var t := TokenAt(s, j);
      if t.kind == '\0' then Done(m, t.next)
      else if t.kind != 'a' || |m.args| + 1 >= MAXARGS then Panic
      else
        SimpleAt(s, t.next, Simple(m.args + [t.span], m.redirs))
  }

  /** One & for each command put in the background. */
  function BacksAt(s: string, i: nat, c: Cmd<Span>): (r: Outcome<Cmd<Span>>)
    requires i <= |s| && IsLine(s) && Words(s, c)
    ensures r.Done? && Parsed(s, i, r)
    decreases |s| - i
  {
    var j := SkipSpace(s, i);
    if Peeks(s, j, {'&'}) then BacksAt(s, TokenAt(s, j).next, Back(c)) else Done(c, j)
  }

  function Wrapped(s: string, c: Cmd<Span>, r: Outcome<seq<Redirection<Span>>>): (w: Outcome<Cmd<Span>>)
    requires Words(s, c) && (r.Done? ==> Files(s, r.value))
    ensures r.Done? <==> w.Done?
    ensures r.Done? ==> w.next == r.next && Words(s, w.value)
  {
    if r.Panic? then Panic
    else
      WrapWords(s, c, r.value);
      Done(Wrap(c, r.value), r.next)
  }

  function Finished(s: string, m: Outcome<Simple>): (w: Outcome<Cmd<Span>>)
    requires m.Done? ==> SimpleWords(s, m.value)
    ensures m.Done? <==> w.Done?
    ensures m.Done? ==> w.next == m.next && Words(s, w.value)
  {
    if m.Panic? then Panic else Wrapped(s, Exec(m.value.args), Done(m.value.redirs, m.next))
  }

  function BlockAt(s: string, i: nat): (r: Outcome<Cmd<Span>>)
    requires i < |s| && IsLine(s) && s[i] == '('
    ensures Parsed(s, i, r)
    decreases |s| - i, 0
  {
    var c := LineAt(s, TokenAt(s, i).next);
    if c.Panic? then Panic
    else
      var j := SkipSpace(s, c.next);
      if !Peeks(s, j, {')'}) then Panic
      else Wrapped(s, c.value, RedirsAt(s, TokenAt(s, j).next, []))
  }

  function ExecAt(s: string, i: nat): (r: Outcome<Cmd<Span>>)
    requires i <= |s| && IsLine(s)
    ensures Parsed(s, i, r)
    decreases |s| - i, 1
  {
    var j := SkipSpace(s, i);
    if Peeks(s, j, {'('}) then BlockAt(s, j) else Finished(s, SimpleAt(s, j, Simple([], [])))
  }

  function PipeAt(s: string, i: nat): (r: Outcome<Cmd<Span>>)
    requires i <= |s| && IsLine(s)
    ensures Parsed(s, i, r)
    decreases |s| - i, 2
  {
    var c := ExecAt(s, i);
    if c.Panic? then Panic
    else
      var j := SkipSpace(s, c.next);
      if !Peeks(s, j, {'|'}) then Done(c.value, j)
      else
        var d := PipeAt(s, TokenAt(s, j).next);
        if d.Panic? then Panic else Done(Pipe(c.value, d.value), d.next)
  }

  function LineAt(s: string, i: nat): (r: Outcome<Cmd<Span>>)
    requires i <= |s| && IsLine(s)
    ensures Parsed(s, i, r)
    decreases |s| - i, 3
  {
    var c := PipeAt(s, i);
    if c.Panic? then Panic
    else
      var b := BacksAt(s, c.next, c.value);
      var j := SkipSpace(s, b.next);
      if !Peeks(s, j, {';'}) then Done(b.value, j)
      else
        var d := LineAt(s, TokenAt(s, j).next);
        if d.Panic? then Panic else Done(List(b.value, d.value), d.next)
  }

  /** The whole line: whatever is left over is a syntax error. */
  function CommandOf(s: string): (r: Outcome<Cmd<Span>>)
    requires IsLine(s)
    ensures Parsed(s, 0, r)
  {
    var c := LineAt(s, 0);
    if c.Panic? || SkipSpace(s, c.next) != |s| then Panic else c
  }

  lemma RedirsSkip(s: string, i: nat, rs: seq<Redirection<Span>>)
    requires IsLine(s) && i <= |s| && Files(s, rs)
    ensures RedirsAt(s, SkipSpace(s, i), rs) == RedirsAt(s, i, rs)
  {
  }

  lemma ArgsSkip(s: string, i: nat, m: Simple)
    requires IsLine(s) && i <= |s| && SimpleWords(s, m)
    ensures ArgsAt(s, SkipSpace(s, i), m) == ArgsAt(s, i, m)
  {
  }

  // ---------------------------------------------------------------- what a parse stands for

  function Slice(s: string, w: Span): string
    requires IsWord(s, w)
  {
    s[w.q..w.eq]
  }

  function Slices(s: string, ws: seq<Span>): (r: seq<string>)
    requires forall w | w in ws :: IsWord(s, w)
  {
    seq(|ws|, k requires 0 <= k < |ws| => Slice(s, ws[k]))
  }

  function Text(s: string, c: Cmd<Span>): (t: Cmd<string>)
    requires Words(s, c)
  {
    match c
    case Exec(args) => Exec(Slices(s, args))
    case Redir(cmd, file, mode) => Redir(Text(s, cmd), Slice(s, file), mode)
    case Pipe(left, right) => Pipe(Text(s, left), Text(s, right))
    case List(left, right) => List(Text(s, left), Text(s, right))
    case Back(cmd) => Back(Text(s, cmd))
  }

  // ---------------------------------------------------------------- NUL termination

  /** The positions nulterminate overwrites. */
  predicate IsEnd(c: Cmd<Span>, k: nat) {
    match c
    case Exec(args) => exists w | w in args :: w.eq == k
    case Redir(cmd, file, _) => IsEnd(cmd, k) || file.eq == k
    case Pipe(left, right) => IsEnd(left, k) || IsEnd(right, k)
    case List(left, right) => IsEnd(left, k) || IsEnd(right, k)
    case Back(cmd) => IsEnd(cmd, k)
  }

  /** The words of a tree, each of which a pointer of the tree refers to. */
  predicate HasWord(c: Cmd<Span>, w: Span) {
    match c
    case Exec(args) => w in args
    case Redir(cmd, file, _) => HasWord(cmd, w) || file == w
    case Pipe(left, right) => HasWord(left, w) || HasWord(right, w)
    case List(left, right) => HasWord(left, w) || HasWord(right, w)
    case Back(cmd) => HasWord(cmd, w)
  }

  /** The C string at q. */
  function CString(b: seq<char>, q: nat): (r: string)
    requires q <= |b|
    decreases |b| - q
  {
    if q == |b| || b[q] == '\0' then "" else [b[q]] + CString(b, q + 1)
  }

  /** What the buffer holds once the ends of c's words have been overwritten. */
  predicate Terminated(before: seq<char>, after: seq<char>, c: Cmd<Span>) {
    && |after| == |before|
    && forall k | 0 <= k < |before| :: after[k] == if IsEnd(c, k) then '\0' else before[k]
  }

  lemma {:induction false} WordChars(s: string, i: nat, k: nat)
    requires i <= |s| && i <= k < WordEnd(s, i)
    ensures IsWordChar(s[k])
    decreases k - i
  {
    if i < k {
      WordChars(s, i + 1, k);
    }
  }

  lemma {:induction false} WordStops(s: string, i: nat)
    requires i <= |s|
    ensures WordEnd(s, i) < |s| ==> !IsWordChar(s[WordEnd(s, i)])
    decreases |s| - i
  {
    if i < |s| && IsWordChar(s[i]) {
      WordStops(s, i + 1);
    }
  }

  /** An end lies behind a word, so never on a word character. */
  lemma {:induction false} EndOutside(s: string, c: Cmd<Span>, k: nat)
    requires Words(s, c) && IsEnd(c, k)
    ensures k <= |s| && (k < |s| ==> !IsWordChar(s[k]))
    decreases c
  {
    match c
    case Exec(args) =>
      var w :| w in args && w.eq == k;
      WordStops(s, w.q);
    case Redir(cmd, file, _) =>
      if file.eq == k { WordStops(s, file.q); } else { EndOutside(s, cmd, k); }
    case Pipe(left, right) =>
      if IsEnd(left, k) { EndOutside(s, left, k); } else { EndOutside(s, right, k); }
    case List(left, right) =>
      if IsEnd(left, k) { EndOutside(s, left, k); } else { EndOutside(s, right, k); }
    case Back(cmd) => EndOutside(s, cmd, k);
  }

  lemma {:induction false} WordEnds(s: string, c: Cmd<Span>, w: Span)
    requires Words(s, c) && HasWord(c, w)
    ensures IsWord(s, w) && IsEnd(c, w.eq)
    decreases c
  {
    match c
    case Exec(args) =>
    case Redir(cmd, file, _) => if file != w { WordEnds(s, cmd, w); }
    case Pipe(left, right) => if HasWord(left, w) { WordEnds(s, left, w); } else { WordEnds(s, right, w); }
    case List(left, right) => if HasWord(left, w) { WordEnds(s, left, w); } else { WordEnds(s, right, w); }
    case Back(cmd) => WordEnds(s, cmd, w);
  }

  lemma {:induction false} ReadsSlice(b: seq<char>, q: nat, e: nat)
    requires q <= e < |b| && b[e] == '\0' && forall k | q <= k < e :: b[k] != '\0'
    ensures CString(b, q) == b[q..e]
    decreases e - q
  {
    if q < e {
      ReadsSlice(b, q + 1, e);
      assert b[q..e] == [b[q]] + b[q + 1..e];
    }
  }

  /** After termination every word pointer of the tree reads as exactly its token. */
  lemma TokensIntact(s: string, c: Cmd<Span>, before: seq<char>, after: seq<char>, w: Span)
    requires Words(s, c) && |s| < |before| && before[..|s|] == s && Terminated(before, after, c) && HasWord(c, w)
    ensures IsWord(s, w) && CString(after, w.q) == Slice(s, w)
  {
    WordEnds(s, c, w);
    forall k | w.q <= k < w.eq ensures after[k] == s[k] != '\0' {
      assert before[k] == before[..|s|][k];
      WordChars(s, w.q, k);
      if IsEnd(c, k) {
        EndOutside(s, c, k);
      }
    }
    ReadsSlice(after, w.q, w.eq);
    assert after[w.q..w.eq] == s[w.q..w.eq];
  }

  // ---------------------------------------------------------------- the parser

  /** A result and a final cursor are what the grammar says; None stands for panic. */
  ghost predicate Is<T>(r: Option<T>, at: nat, o: Outcome<T>) {
    match r
    case Some(v) => o == Done(v, at)
    case None => o == Panic
  }

  /** A line in a NUL-terminated buffer, and the cursor the parsing routines share. */
  class Parser {
    const buf: array<char>
    const es: nat
    var ps: nat

    ghost predicate Valid()
      reads this, buf
    {
      es < buf.Length && buf[es] == '\0' && IsLine(buf[..es]) && ps <= es
    }

    ghost function Line(): string
      requires es < buf.Length
      reads buf
    {
      buf[..es]
    }

    constructor (buf: array<char>, es: nat)
      requires es < buf.Length && buf[es] == '\0' && IsLine(buf[..es])
      ensures Valid() && ps == 0 && this.buf == buf && this.es == es
    {
      this.buf, this.es, ps := buf, es, 0;
    }

    method Skip()
      requires Valid()
      modifies this`ps
      ensures Valid() && ps == SkipSpace(Line(), old(ps))
    {
      while ps < es && IsSpace(buf[ps])
        invariant Valid() && SkipSpace(Line(), ps) == SkipSpace(Line(), old(ps))
        decreases es - ps
      {
        ps := ps + 1;
      }
    }

    method Gettoken() returns (kind: char, w: Span)
      requires Valid()
      modifies this`ps
      ensures Valid() && TokenAt(Line(), old(ps)) == Token(kind, w, ps)
    {
      Skip();
      var q := ps;
      kind := buf[ps];
      if kind == '\0' {
      } else if kind == '>' {
        ps := ps + 1;
        if buf[ps] == '>' {
          kind := '+';
          ps := ps + 1;
        }
      } else if IsSymbol(kind) {
        ps := ps + 1;
      } else {
        kind := 'a';
        while ps < es && IsWordChar(buf[ps])
          invariant Valid() && WordEnd(Line(), ps) == WordEnd(Line(), q)
          decreases es - ps
        {
          ps := ps + 1;
        }
      }
      w := Span(q, ps);
      Skip();
    }

    method Peek(toks: set<char>) returns (b: bool)
      requires Valid() && '\0' !in toks
      modifies this`ps
      ensures Valid() && ps == SkipSpace(Line(), old(ps)) && b == Peeks(Line(), ps, toks)
    {
      Skip();
      b := buf[ps] in toks;
    }

    method ParseRedirs(acc: seq<Redirection<Span>>) returns (r: Option<seq<Redirection<Span>>>)
      requires Valid() && Files(Line(), acc)
      modifies this`ps
      ensures Valid() && Is(r, ps, RedirsAt(Line(), old(ps), acc))
    {
      ghost var s := Line();
      var rs := acc;
      RedirsSkip(s, ps, rs);
      var more := Peek({'<', '>'});
      while more
        invariant Valid() && Files(s, rs) && more == Peeks(s, ps, {'<', '>'}) && SkipSpace(s, ps) == ps
        invariant RedirsAt(s, ps, rs) == RedirsAt(s, old(ps), acc)
        decreases es - ps
      {
        var tok, _ := Gettoken();
        var kind, w := Gettoken();
        if kind != 'a' {
          return None;
        }
        rs := rs + [Redirection(w, ModeOf(tok))];
        RedirsSkip(s, ps, rs);
        more := Peek({'<', '>'});
      }
      r := Some(rs);
    }

    method ParseExec() returns (r: Option<Cmd<Span>>)
      requires Valid()
      modifies this`ps
      ensures Valid() && Is(r, ps, ExecAt(Line(), old(ps)))
      decreases es - ps, 1
    {
      var block := Peek({'('});
      if block {
        r := ParseBlock();
        return;
      }
      var rs := ParseRedirs([]);
      if rs.None? {
        return None;
      }
      var m := ParseArgs(Simple([], rs.value));
      r := if m.None? then None else Some(Wrap(Exec(m.value.args), m.value.redirs));
    }

    /** The loop of parseexec: words, each with the redirections behind it. */
    method ParseArgs(start: Simple) returns (r: Option<Simple>)
      requires Valid() && SimpleWords(Line(), start)
      modifies this`ps
      ensures Valid() && Is(r, ps, ArgsAt(Line(), old(ps), start))
    {
      ghost var s := Line();
      var m := start;
      var stop := Peek({'|', ')', '&', ';'});
      while !stop
        invariant Valid() && SimpleWords(s, m)
        invariant stop == Peeks(s, ps, {'|', ')', '&', ';'}) && SkipSpace(s, ps) == ps
        invariant ArgsAt(s, ps, m) == ArgsAt(s, old(ps), start)
        decreases es - ps
      {
        var tok, w := Gettoken();
        if tok == '\0' {
          break;
        }
        if tok != 'a' || |m.args| + 1 >= MAXARGS {
          return None;
        }
        var rs := ParseRedirs(m.redirs);
        if rs.None? {
          return None;
        }
        m := Simple(m.args + [w], rs.value);
        ArgsSkip(s, ps, m);
        stop := Peek({'|', ')', '&', ';'});
      }
      r := Some(m);
    }

    method ParseBlock() returns (r: Option<Cmd<Span>>)
      requires Valid() && ps < es && buf[ps] == '('
      modifies this`ps
      ensures Valid() && Is(r, ps, BlockAt(Line(), old(ps)))
      decreases es - ps, 0
    {
      var _, _ := Gettoken();
      r := ParseLine();
      if r.None? {
        return;
      }
      var closed := Peek({')'});
      if !closed {
        return None;
      }
      var _, _ := Gettoken();
      var rs := ParseRedirs([]);
      if rs.None? {
        return None;
      }
      r := Some(Wrap(r.value, rs.value));
    }

    method ParsePipe() returns (r: Option<Cmd<Span>>)
      requires Valid()
      modifies this`ps
      ensures Valid() && Is(r, ps, PipeAt(Line(), old(ps)))
      decreases es - ps, 2
    {
      r := ParseExec();
      if r.None? {
        return;
      }
      var more := Peek({'|'});
      if more {
        var _, _ := Gettoken();
        var right := ParsePipe();
        r := if right.None? then None else Some(Pipe(r.value, right.value));
      }
    }

    /** parseline's loop over the ampersands after a pipeline. */
    method ParseBacks(first: Cmd<Span>) returns (c: Cmd<Span>)
      requires Valid() && Words(Line(), first)
      modifies this`ps
      ensures Valid() && Words(Line(), c) && old(ps) <= ps && !Peeks(Line(), ps, {'&'}) && SkipSpace(Line(), ps) == ps
      ensures BacksAt(Line(), ps, c) == BacksAt(Line(), old(ps), first)
    {
      c := first;
      var more := Peek({'&'});
      while more
        invariant Valid() && Words(Line(), c) && old(ps) <= ps
        invariant more == Peeks(Line(), ps, {'&'}) && SkipSpace(Line(), ps) == ps
        invariant BacksAt(Line(), ps, c) == BacksAt(Line(), old(ps), first)
        decreases es - ps
      {
        var _, _ := Gettoken();
        c := Back(c);
        more := Peek({'&'});
      }
    }

    method ParseLine() returns (r: Option<Cmd<Span>>)
      requires Valid()
      modifies this`ps
      ensures Valid() && Is(r, ps, LineAt(Line(), old(ps)))
      decreases es - ps, 3
    {
      r := ParsePipe();
      if r.None? {
        return;
      }
      var c := ParseBacks(r.value);
      r := Some(c);
      var more := Peek({';'});
      if more {
        var _, _ := Gettoken();
        var right := ParseLine();
        r := if right.None? then None else Some(List(r.value, right.value));
      }
    }

    /** Overwrites the character behind every word of c with NUL. */
    method Nulterminate(c: Cmd<Span>)
      requires forall k: nat | IsEnd(c, k) :: k < buf.Length
      modifies buf
      ensures Terminated(old(buf[..]), buf[..], c)
      decreases c
    {
      match c
      case Exec(args) =>
        for i := 0 to |args|
          invariant forall k | 0 <= k < buf.Length ::
              buf[k] == if exists w | w in args[..i] :: w.eq == k then '\0' else old(buf[k])
        {
          assert args[i] in args && IsEnd(c, args[i].eq);
          buf[args[i].eq] := '\0';
          assert args[..i + 1] == args[..i] + [args[i]];
        }
        assert args[..|args|] == args;
      case Redir(cmd, file, _) =>
        assert IsEnd(c, file.eq) && forall k: nat | IsEnd(cmd, k) :: IsEnd(c, k);
        Nulterminate(cmd);
        buf[file.eq] := '\0';
      case Pipe(left, right) =>
        assert (forall k: nat | IsEnd(left, k) :: IsEnd(c, k)) && forall k: nat | IsEnd(right, k) :: IsEnd(c, k);
        Nulterminate(left);
        Nulterminate(right);
      case List(left, right) =>
        assert (forall k: nat | IsEnd(left, k) :: IsEnd(c, k)) && forall k: nat | IsEnd(right, k) :: IsEnd(c, k);
        Nulterminate(left);
        Nulterminate(right);
      case Back(cmd) =>
        assert forall k: nat | IsEnd(cmd, k) :: IsEnd(c, k);
        Nulterminate(cmd);
    }
  }

  method Strlen(buf: array<char>, ghost n: nat) returns (len: nat)
    requires n < buf.Length && buf[n] == '\0' && IsLine(buf[..n])
    ensures len == n
  {
    len := 0;
    while buf[len] != '\0'
      invariant len <= n
      decreases n - len
    {
      len := len + 1;
    }
  }

  /**
    * Parses the line s in buf.  A tree is returned exactly when the grammar accepts the whole line, and then
    * every pointer of the tree refers to a C string that is its token.
    */
  method Parsecmd(buf: array<char>, ghost s: string) returns (r: Option<Cmd<Span>>)
    requires |s| < buf.Length && buf[..|s|] == s && buf[|s|] == '\0' && IsLine(s)
    modifies buf
    ensures r.Some? <==> CommandOf(s).Done?
    ensures r.Some? ==> r.value == CommandOf(s).value && Words(s, r.value)
    ensures r.Some? ==> forall w | HasWord(r.value, w) :: IsWord(s, w) && CString(buf[..], w.q) == Slice(s, w)
  {
    var es := Strlen(buf, |s|);
    var parser := new Parser(buf, es);
    r := parser.ParseLine();
    var _ := parser.Peek({});
    if r.None? || parser.ps != es {
      return None;
    }
    forall k: nat | IsEnd(r.value, k) ensures k < buf.Length {
      EndOutside(s, r.value, k);
    }
    ghost var before := buf[..];
    parser.Nulterminate(r.value);
    forall w | HasWord(r.value, w) ensures IsWord(s, w) && CString(buf[..], w.q) == Slice(s, w) {
      TokensIntact(s, r.value, before, buf[..], w);
    }
  }
}

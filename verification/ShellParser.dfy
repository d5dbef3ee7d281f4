/** gettoken's view of a line: where the tokens are. */
module ShellLexer {
  import opened ShellGrammar

  const NUL: char := '\0'

  /** A word as the pair of positions (q, eq) that gettoken stores. */
  datatype Span = Span(q: nat, e: nat)

  predicate IsSpace(c: char) {
    c == ' ' || c == '\t' || c == '\r' || c == '\n' || c == '\U{0B}'
  }

  predicate IsSymbol(c: char) {
    c == '<' || c == '|' || c == '>' || c == '&' || c == ';' || c == '(' || c == ')'
  }

  predicate IsWordChar(c: char) {
    !IsSpace(c) && !IsSymbol(c) && c != NUL
  }

  predicate NoNul(s: string) {
    forall i :: 0 <= i < |s| ==> s[i] != NUL
  }

  function SkipSpace(s: string, p: nat): (r: nat)
    requires p <= |s|
    ensures p <= r <= |s| && (r < |s| ==> !IsSpace(s[r]))
    ensures forall i :: p <= i < r ==> IsSpace(s[i])
    decreases |s| - p
  {
    if p < |s| && IsSpace(s[p]) then SkipSpace(s, p + 1) else p
  }

  function SkipWord(s: string, p: nat): (r: nat)
    requires p <= |s|
    ensures p <= r <= |s| && (r < |s| ==> !IsWordChar(s[r]))
    ensures forall i :: p <= i < r ==> IsWordChar(s[i])
    decreases |s| - p
  {
    if p < |s| && IsWordChar(s[p]) then SkipWord(s, p + 1) else p
  }

  /** The token at p and the position after it. */
  function TokenAt(s: string, p: nat): (r: (Token<Span>, nat))
    requires p < |s| && !IsSpace(s[p]) && s[p] != NUL
    ensures p < r.1 <= |s|
  {
    match s[p]
    case '|' => (Bar, p + 1)
    case '(' => (Open, p + 1)
    case ')' => (Close, p + 1)
    case ';' => (Semi, p + 1)
    case '&' => (Amp, p + 1)
    case '<' => (Less, p + 1)
    case '>' => if p + 1 < |s| && s[p + 1] == '>' then (Append, p + 2) else (Greater, p + 1)
    case _ => (Word(Span(p, SkipWord(s, p))), SkipWord(s, p))
  }

  function Lex(s: string, p: nat): seq<Token<Span>>
    requires p <= |s| && NoNul(s)
    decreases |s| - p
  {
    var q := SkipSpace(s, p);
    if q == |s| then [] else [TokenAt(s, q).0] + Lex(s, TokenAt(s, q).1)
  }

  lemma {:induction false} SkipSpaceTwice(s: string, p: nat, q: nat)
    requires p <= q <= |s| && forall i :: p <= i < q ==> IsSpace(s[i])
    ensures SkipSpace(s, p) == SkipSpace(s, q)
    decreases q - p
  {
    if p < q {
      SkipSpaceTwice(s, p + 1, q);
    }
  }

  /** Spaces before the cursor make no difference. */
  lemma LexSkips(s: string, p: nat, q: nat)
    requires p <= q <= |s| && NoNul(s) && forall i :: p <= i < q ==> IsSpace(s[i])
    ensures Lex(s, p) == Lex(s, q)
  {
    SkipSpaceTwice(s, p, q);
  }

  /** A word stands alone: word characters, and none right after them. */
  ghost predicate IsWord(s: string, w: Span) {
    && w.q < w.e <= |s|
    && (forall i :: w.q <= i < w.e ==> IsWordChar(s[i]))
    && (w.e < |s| ==> !IsWordChar(s[w.e]))
  }

  lemma {:induction false} LexWords(s: string, p: nat, w: Span)
    requires p <= |s| && NoNul(s) && w in TokenWords(Lex(s, p))
    ensures IsWord(s, w)
    decreases |s| - p
  {
    var q := SkipSpace(s, p);
    if q < |s| {
      var t, e := TokenAt(s, q).0, TokenAt(s, q).1;
      assert Lex(s, p)[1..] == Lex(s, e);
      if w in TokenWords(Lex(s, e)) {
        LexWords(s, e, w);
      }
    }
  }

  // ------------------------------------------------------------ rendering

  function Text(s: string, w: Span): string {
    if w.q <= w.e <= |s| then s[w.q..w.e] else []
  }

  function TextOf(s: string): (f: Span -> string)
    ensures forall w :: f(w) == Text(s, w)
  {
    w => Text(s, w)
  }

  predicate IsGap(s: string) {
    forall i :: 0 <= i < |s| ==> IsSpace(s[i])
  }

  predicate ValidWord(w: string) {
    w != [] && forall i :: 0 <= i < |w| ==> IsWordChar(w[i])
  }

  function Show(t: Token<string>): string {
    match t
    case Bar => "|"
    case Open => "("
    case Close => ")"
    case Semi => ";"
    case Amp => "&"
    case Less => "<"
    case Greater => ">"
    case Append => ">>"
    case Word(w) => w
  }

  /** Tokens that would run together without a space. */
  predicate Sticks(t: Token<string>, u: Token<string>) {
    (t.Word? && u.Word?) || (t.Greater? && (u.Greater? || u.Append?))
  }

  /** Valid words, and white space before, between and after the tokens, with some
      where two would run together. */
  predicate Spacing(ts: seq<Token<string>>, gaps: seq<string>) {
    && |gaps| == |ts| + 1
    && IsGap(gaps[0])
    && (ts != [] ==>
          && (ts[0].Word? ==> ValidWord(ts[0].w))
          && (|ts| > 1 && Sticks(ts[0], ts[1]) ==> gaps[1] != [])
          && Spacing(ts[1..], gaps[1..]))
  }

  function Render(ts: seq<Token<string>>, gaps: seq<string>): string
    requires |gaps| == |ts| + 1
  {
    if ts == [] then gaps[0] else gaps[0] + (Show(ts[0]) + Render(ts[1..], gaps[1..]))
  }

  lemma {:induction false} RenderNoNul(ts: seq<Token<string>>, gaps: seq<string>)
    requires Spacing(ts, gaps)
    ensures NoNul(Render(ts, gaps))
    decreases |ts|
  {
    if ts != [] {
      RenderNoNul(ts[1..], gaps[1..]);
      assert NoNul(Show(ts[0])) && NoNul(gaps[0]);
    }
  }

  /** What comes right after a token cannot extend it. */
  lemma Separates(ts: seq<Token<string>>, gaps: seq<string>)
    requires ts != [] && Spacing(ts, gaps)
    ensures var r := Render(ts[1..], gaps[1..]);
            r != [] ==> (ts[0].Word? ==> !IsWordChar(r[0])) && (ts[0].Greater? ==> r[0] != '>')
  {
    var us, hs := ts[1..], gaps[1..];
    if hs[0] != [] {
      assert Render(us, hs)[0] == hs[0][0];
    } else if us != [] {
      assert Render(us, hs) == Show(us[0]) + Render(us[1..], hs[1..]);
    }
  }

  /** The token spelled at q is the token gettoken finds there. */
  lemma FindsToken(s: string, q: nat, t: Token<string>, r: string)
    requires q <= |s| && s[q..] == Show(t) + r && (t.Word? ==> ValidWord(t.w))
    requires r != [] ==> (t.Word? ==> !IsWordChar(r[0])) && (t.Greater? ==> r[0] != '>')
    ensures q < |s| && !IsSpace(s[q]) && s[q] != NUL
    ensures MapToken(TextOf(s), TokenAt(s, q).0) == t
    ensures TokenAt(s, q).1 == q + |Show(t)| && s[q + |Show(t)|..] == r
  {
    var e := q + |Show(t)|;
    assert s[q..][0] == s[q] == Show(t)[0];
    assert s[e..] == s[q..][|Show(t)|..] == r;
    assert e < |s| ==> s[e] == r[0];
    if t.Word? {
      forall i | q <= i < e ensures s[i] == t.w[i - q] && IsWordChar(s[i]) {
        assert s[i] == s[q..][i - q];
      }
      SkipWordTo(s, q, e);
      assert s[q..e] == t.w;
    } else if t.Append? {
      assert s[q + 1] == s[q..][1];
    }
  }

  /** gettoken cuts every text of the tokens back into the tokens. */
  lemma {:induction false} LexRender(s: string, p: nat, ts: seq<Token<string>>, gaps: seq<string>)
    requires p <= |s| && NoNul(s) && Spacing(ts, gaps) && s[p..] == Render(ts, gaps)
    ensures MapTokens(TextOf(s), Lex(s, p)) == ts
    decreases |ts|
  {
    if ts == [] {
      assert gaps[0] + [] == gaps[0];
      GapAt(s, p, gaps[0], []);
      SkipSpaceTo(s, p, |s|);
    } else {
      var q := FirstToken(s, p, ts, gaps);
      hide TokenAt, Render, Lex, SkipSpace, MapToken, Show, IsGap;
      LexRender(s, TokenAt(s, q).1, ts[1..], gaps[1..]);
      LexStep(s, p, q, ts);
    }
  }

  lemma FirstToken(s: string, p: nat, ts: seq<Token<string>>, gaps: seq<string>) returns (q: nat)
    requires p <= |s| && NoNul(s) && ts != [] && Spacing(ts, gaps) && s[p..] == Render(ts, gaps)
    ensures q == SkipSpace(s, p) && q < |s|
    ensures MapToken(TextOf(s), TokenAt(s, q).0) == ts[0]
    ensures s[TokenAt(s, q).1..] == Render(ts[1..], gaps[1..])
  {
    q := p + |gaps[0]|;
    var r := Render(ts[1..], gaps[1..]);
    Separates(ts, gaps);
    assert Render(ts, gaps) == gaps[0] + (Show(ts[0]) + r);
    GapAt(s, p, gaps[0], Show(ts[0]) + r);
    FindsToken(s, q, ts[0], r);
    SkipSpaceTo(s, p, q);
  }

  lemma GapAt(s: string, p: nat, g: string, r: string)
    requires p <= |s| && s[p..] == g + r && IsGap(g)
    ensures p + |g| <= |s| && s[p + |g|..] == r && forall i :: p <= i < p + |g| ==> IsSpace(s[i])
  {
    forall i | p <= i < p + |g| ensures IsSpace(s[i]) {
      assert s[i] == s[p..][i - p] == g[i - p];
    }
    assert s[p + |g|..] == s[p..][|g|..] == r;
  }

  lemma LexStep(s: string, p: nat, q: nat, ts: seq<Token<string>>)
    requires p <= |s| && NoNul(s) && q == SkipSpace(s, p) && q < |s| && ts != []
    requires MapToken(TextOf(s), TokenAt(s, q).0) == ts[0]
    requires MapTokens(TextOf(s), Lex(s, TokenAt(s, q).1)) == ts[1..]
    ensures MapTokens(TextOf(s), Lex(s, p)) == ts
  {
    var t, rest := TokenAt(s, q).0, Lex(s, TokenAt(s, q).1);
    assert Lex(s, p) == [t] + rest;
    MapFirst(TextOf(s), t, rest);
    assert ts == [ts[0]] + ts[1..];
  }

  lemma MapFirst<W, V>(f: W -> V, t: Token<W>, rest: seq<Token<W>>)
    ensures MapTokens(f, [t] + rest) == [MapToken(f, t)] + MapTokens(f, rest)
  {
  }

  lemma {:induction false} SkipWordTo(s: string, p: nat, e: nat)
    requires p <= e <= |s| && (forall i :: p <= i < e ==> IsWordChar(s[i])) && (e < |s| ==> !IsWordChar(s[e]))
    ensures SkipWord(s, p) == e
    decreases e - p
  {
    if p < e {
      SkipWordTo(s, p + 1, e);
    }
  }

  lemma {:induction false} SkipSpaceTo(s: string, p: nat, e: nat)
    requires p <= e <= |s| && (forall i :: p <= i < e ==> IsSpace(s[i])) && (e < |s| ==> !IsSpace(s[e]))
    ensures SkipSpace(s, p) == e
  {
    SkipSpaceTwice(s, p, e);
  }
}

/** The parser of sh.c on its buffer: a cursor that gettoken and peek move, and
    nulterminate's writes into the line. */
module Shell {
  import opened ShellGrammar
  import opened ShellLexer

  datatype Outcome = Tree(cmd: Cmd<Span>) | Panic(e: Error)

  /** A method's outcome and the tokens it leaves are those of the grammar. */
  ghost predicate Agrees(p: Parsed<Span>, r: Outcome, left: seq<Token<Span>>) {
    match p
    case Ok(c, rest) => r == Tree(c) && left == rest
    case Err(e) => r == Panic(e)
  }

  /** gettoken's return value for a token. */
  function Code(t: Token<Span>): char {
    match t
    case Bar => '|'
    case Open => '('
    case Close => ')'
    case Semi => ';'
    case Amp => '&'
    case Less => '<'
    case Greater => '>'
    case Append => '+'
    case Word(_) => 'a'
  }

  /** peek's answer for the tokens ahead. */
  predicate Ahead(ts: seq<Token<Span>>, toks: string) {
    ts != [] && !ts[0].Word? && (if ts[0].Append? then '>' else Code(ts[0])) in toks
  }

  /** The positions nulterminate clears. */
  function Ends(c: Cmd<Span>): set<nat> {
    match c
    case Exec(argv) => set i | 0 <= i < |argv| :: argv[i].e
    case Redir(d, w, _) => Ends(d) + {w.e}
    case Pipe(l, r) => Ends(l) + Ends(r)
    case List(l, r) => Ends(l) + Ends(r)
    case Back(d) => Ends(d)
  }

  lemma {:induction false} EndsAreEnds(c: Cmd<Span>, e: nat) returns (w: Span)
    requires e in Ends(c)
    ensures w in CmdWords(c) && w.e == e
  {
    match c {
      case Exec(argv) =>
        var i :| 0 <= i < |argv| && argv[i].e == e;
        w := argv[i];
      case Redir(d, v, _) => if e in Ends(d) { w := EndsAreEnds(d, e); } else { w := v; }
      case Pipe(l, r) => if e in Ends(l) { w := EndsAreEnds(l, e); } else { w := EndsAreEnds(r, e); }
      case List(l, r) => if e in Ends(l) { w := EndsAreEnds(l, e); } else { w := EndsAreEnds(r, e); }
      case Back(d) => w := EndsAreEnds(d, e);
    }
  }

  lemma {:induction false} WordsEnd(c: Cmd<Span>, w: Span)
    requires w in CmdWords(c)
    ensures w.e in Ends(c)
  {
    match c {
      case Exec(argv) =>
      case Redir(d, v, _) => if w in CmdWords(d) { WordsEnd(d, w); }
      case Pipe(l, r) => if w in CmdWords(l) { WordsEnd(l, w); } else { WordsEnd(r, w); }
      case List(l, r) => if w in CmdWords(l) { WordsEnd(l, w); } else { WordsEnd(r, w); }
      case Back(d) => WordsEnd(d, w);
    }
  }

  /** The C string at q is s. */
  ghost predicate Reads(buf: seq<char>, q: nat, s: string) {
    && q + |s| < |buf| && buf[q + |s|] == NUL && NoNul(s)
    && forall i :: 0 <= i < |s| ==> buf[q + i] == s[i]
  }

  /** parseredirs with the redirections so far. */
  ghost function RedirsFrom(rs: seq<(Span, bool)>, ts: seq<Token<Span>>): Redirs<Span> {
    match ParseRedirs(ts)
    case NoFile => NoFile
    case Redirections(more, rest) => Redirections(rs + more, rest)
  }

  lemma RedirsNone(ts: seq<Token<Span>>)
    ensures RedirsFrom([], ts) == ParseRedirs(ts)
  {
    if ParseRedirs(ts).Redirections? {
      assert [] + ParseRedirs(ts).rs == ParseRedirs(ts).rs;
    }
  }

  lemma RedirsStop(rs: seq<(Span, bool)>, ts: seq<Token<Span>>)
    requires !AtRedir(ts)
    ensures RedirsFrom(rs, ts) == Redirections(rs, ts)
  {
    assert rs + [] == rs;
  }

  lemma RedirsStep(rs: seq<(Span, bool)>, ts: seq<Token<Span>>)
    requires AtRedir(ts)
    ensures |ts| >= 2 && ts[1].Word? ==> RedirsFrom(rs, ts) == RedirsFrom(rs + [(ts[1].w, !ts[0].Less?)], ts[2..])
    ensures !(|ts| >= 2 && ts[1].Word?) ==> RedirsFrom(rs, ts).NoFile?
  {
    if |ts| >= 2 && ts[1].Word? && ParseRedirs(ts[2..]).Redirections? {
      var first, more := [(ts[1].w, !ts[0].Less?)], ParseRedirs(ts[2..]).rs;
      assert rs + (first + more) == rs + first + more;
    }
  }

  lemma ArgsStep(argv: seq<Span>, rs: seq<(Span, bool)>, ts: seq<Token<Span>>)
    requires !Ahead(ts, "|)&;") && |argv| < MAXARGS
    ensures ts == [] ==> ParseArgs(argv, rs, ts) == Ok(Wrap(Exec(argv), rs), ts)
    ensures ts != [] && !ts[0].Word? ==> ParseArgs(argv, rs, ts) == Err(Syntax)
    ensures ts != [] && ts[0].Word? && |argv| + 1 >= MAXARGS ==> ParseArgs(argv, rs, ts) == Err(TooManyArgs)
    ensures ts != [] && ts[0].Word? && |argv| + 1 < MAXARGS ==>
              var r := ParseRedirs(ts[1..]);
              && (r.NoFile? ==> ParseArgs(argv, rs, ts) == Err(MissingFile))
              && (r.Redirections? ==> ParseArgs(argv, rs, ts) == ParseArgs(argv + [ts[0].w], rs + r.rs, r.rest))
  {
    StopSet(ts);
  }

  lemma StopSet(ts: seq<Token<Span>>)
    ensures Ahead(ts, "|)&;") || ts == [] <==> AtStop(ts)
    ensures Ahead(ts, "<>") <==> AtRedir(ts)
  {
    var toks := "|)&;";
    assert toks[0] == '|' && toks[1] == ')' && toks[2] == '&' && toks[3] == ';';
    var rs := "<>";
    assert rs[0] == '<' && rs[1] == '>';
  }

  lemma OneSet(ts: seq<Token<Span>>)
    ensures Ahead(ts, "(") <==> ts != [] && ts[0].Open?
    ensures Ahead(ts, ")") <==> ts != [] && ts[0].Close?
    ensures Ahead(ts, "|") <==> ts != [] && ts[0].Bar?
    ensures Ahead(ts, "&") <==> ts != [] && ts[0].Amp?
    ensures Ahead(ts, ";") <==> ts != [] && ts[0].Semi?
  {
    assert "("[0] == '(' && ")"[0] == ')' && "|"[0] == '|' && "&"[0] == '&' && ";"[0] == ';';
  }

  class Parser {
    const buf: array<char>
    /** es - s: the length of the line. */
    const n: nat
    var ps: nat

    ghost predicate Valid()
      reads this, buf
    {
      buf.Length == n + 1 && ps <= n && buf[n] == NUL && forall i :: 0 <= i < n ==> buf[i] != NUL
    }

    ghost function Line(): (s: string)
      requires Valid()
      reads this, buf
      ensures |s| == n && NoNul(s) && forall i :: 0 <= i < n ==> s[i] == buf[i]
    {
      buf[..n]
    }

    /** The tokens ahead of the cursor. */
    ghost function Left(): seq<Token<Span>>
      requires Valid()
      reads this, buf
    {
      Lex(Line(), ps)
    }

    constructor (line: string)
      requires NoNul(line)
      ensures Valid() && fresh(buf) && n == |line| && ps == 0 && Line() == line
    {
      n, ps := |line|, 0;
      buf := new char[|line| + 1](i requires 0 <= i <= |line| => if i < |line| then line[i] else NUL);
      new;
      assert Line() == line;
    }

    /** The white space loops of gettoken and peek. */
    method SkipWhite(s0: nat) returns (s: nat)
      requires Valid() && s0 <= n
      ensures s == SkipSpace(Line(), s0)
    {
      s := s0;
      while s < n && IsSpace(buf[s])
        invariant s0 <= s <= n && forall i :: s0 <= i < s ==> IsSpace(Line()[i])
      {
        s := s + 1;
      }
      SkipSpaceTo(Line(), s0, s);
    }

    method SkipChars(s0: nat) returns (s: nat)
      requires Valid() && s0 <= n
      ensures s == SkipWord(Line(), s0)
    {
      s := s0;
      while s < n && !IsSpace(buf[s]) && !IsSymbol(buf[s])
        invariant s0 <= s <= n && forall i :: s0 <= i < s ==> IsWordChar(Line()[i])
      {
        s := s + 1;
      }
      SkipWordTo(Line(), s0, s);
    }

    /** gettoken's switch: the token that starts at s0. */
    method Cut(s0: nat) returns (tok: char, s: nat)
      requires Valid() && s0 <= n && (s0 < n ==> !IsSpace(Line()[s0]))
      ensures s0 == n ==> tok == NUL && s == n
      ensures s0 < n ==>
                && tok == Code(TokenAt(Line(), s0).0) && s == TokenAt(Line(), s0).1
                && (TokenAt(Line(), s0).0.Word? ==> TokenAt(Line(), s0).0.w == Span(s0, s))
    {
      s, tok := s0, buf[s0];
      if tok == NUL {
        return;
      } else if tok == '>' {
        s := s + 1;
        if buf[s] == '>' {
          tok := '+';
          s := s + 1;
        }
      } else if tok == '|' || tok == '(' || tok == ')' || tok == ';' || tok == '&' || tok == '<' {
        s := s + 1;
      } else {
        tok := 'a';
        s := SkipChars(s);
      }
    }

    /** gettoken: one token, its span, and the cursor behind it and the space after it. */
    method GetToken() returns (tok: char, q: nat, eq: nat)
      requires Valid()
      modifies this`ps
      ensures Valid()
      ensures old(Left()) == [] ==> tok == NUL && Left() == []
      ensures old(Left()) != [] ==>
                && tok == Code(old(Left())[0]) && Left() == old(Left())[1..]
                && (old(Left())[0].Word? ==> old(Left())[0].w == Span(q, eq))
    {
      ghost var line, p := Line(), ps;
      q := SkipWhite(ps);
      tok, eq := Cut(q);
      ps := SkipWhite(eq);
      LexSkips(line, eq, ps);
      assert Lex(line, p) == if q == |line| then [] else [TokenAt(line, q).0] + Lex(line, TokenAt(line, q).1);
    }

    /** peek: moves over white space only. */
    method Peek(toks: string) returns (r: bool)
      requires Valid() && forall i :: 0 <= i < |toks| ==> IsSymbol(toks[i])
      modifies this`ps
      ensures Valid() && Left() == old(Left()) && (ps < n ==> !IsSpace(buf[ps]))
      ensures r <==> Ahead(Left(), toks)
    {
      var s := SkipWhite(ps);
      LexSkips(Line(), ps, s);
      ps := s;
      SkipSpaceTo(Line(), ps, ps);
      r := buf[s] != NUL && buf[s] in toks;
    }

    /** One turn of parseredirs: the two gettokens. */
    method OneRedir() returns (ok: bool, r: (Span, bool))
      requires Valid() && AtRedir(Left())
      modifies this`ps
      ensures Valid() && (ok <==> |old(Left())| >= 2 && old(Left())[1].Word?)
      ensures ok ==> r == (old(Left())[1].w, !old(Left())[0].Less?) && Left() == old(Left())[2..]
    {
      hide Lex;
      ghost var us := Left();
      var tok, _, _ := GetToken();
      var w, q, eq := GetToken();
      assert us[1..] != [] ==> us[1..][0] == us[1] && us[1..][1..] == us[2..];
      return w == 'a', (Span(q, eq), tok != '<');
    }

    /** parseredirs: the redirections at the cursor, in order. */
    method ParseRedirs() returns (ok: bool, rs: seq<(Span, bool)>)
      requires Valid()
      modifies this`ps
      ensures Valid()
      ensures ok ==> ShellGrammar.ParseRedirs(old(Left())) == Redirections(rs, Left())
      ensures !ok ==> ShellGrammar.ParseRedirs(old(Left())).NoFile?
    {
      hide Lex, ShellGrammar.ParseRedirs, Ahead, RedirsFrom, AtRedir;
      ghost var ts := Left();
      rs := [];
      RedirsNone(ts);
      StopSet(ts);
      var more := Peek("<>");
      while more
        invariant Valid() && (more <==> AtRedir(Left()))
        invariant RedirsFrom([], ts) == RedirsFrom(rs, Left())
        decreases |Left()|
      {
        RedirsStep(rs, Left());
        var r;
        ok, r := OneRedir();
        if !ok {
          return;
        }
        rs := rs + [r];
        StopSet(Left());
        more := Peek("<>");
      }
      RedirsStop(rs, Left());
      ok := true;
    }

    /** parseexec's words, after the redirections in front of them. The exec node
        that the source fills while it is already wrapped is built last here. */
    method ParseWords(rs0: seq<(Span, bool)>) returns (r: Outcome)
      requires Valid()
      modifies this`ps
      ensures Valid() && Agrees(ParseArgs([], rs0, old(Left())), r, Left())
    {
      hide Lex, ShellGrammar.ParseRedirs;
      ghost var p := ParseArgs([], rs0, Left());
      var argv, rs := [], rs0;
      var stop := Peek("|)&;");
      while !stop
        invariant Valid() && (stop <==> Ahead(Left(), "|)&;")) && |argv| < MAXARGS
        invariant p == ParseArgs(argv, rs, Left())
        decreases |Left()|
      {
        ghost var ts := Left();
        ArgsStep(argv, rs, ts);
        var tok, q, eq := GetToken();
        if tok == NUL {
          break;
        }
        if tok != 'a' {
          return Panic(Syntax);
        }
        argv := argv + [Span(q, eq)];
        if |argv| >= MAXARGS {
          return Panic(TooManyArgs);
        }
        var ok, more := ParseRedirs();
        if !ok {
          return Panic(MissingFile);
        }
        rs := rs + more;
        stop := Peek("|)&;");
      }
      r := Tree(Wrap(Exec(argv), rs));
    }

    /** parseblock. */
    method ParseBlock() returns (r: Outcome)
      requires Valid() && Left() != [] && Left()[0].Open?
      modifies this`ps
      ensures Valid() && Agrees(ParseExec(old(Left())), r, Left())
      decreases |Left()|, 0
    {
      hide Lex, ShellGrammar.ParseRedirs, ShellGrammar.ParseLine, ParseArgs;
      var _, _, _ := GetToken();
      r := ParseLine();
      if r.Panic? {
        return;
      }
      OneSet(Left());
      var close := Peek(")");
      if !close {
        return Panic(MissingParen);
      }
      var _, _, _ := GetToken();
      var ok, rs := ParseRedirs();
      if !ok {
        return Panic(MissingFile);
      }
      r := Tree(Wrap(r.cmd, rs));
    }

    /** parseexec. */
    method ParseCommand() returns (r: Outcome)
      requires Valid()
      modifies this`ps
      ensures Valid() && Agrees(ParseExec(old(Left())), r, Left())
      decreases |Left()|, 1
    {
      hide Lex, ShellGrammar.ParseRedirs, ShellGrammar.ParseLine, ParseArgs;
      OneSet(Left());
      var open := Peek("(");
      if open {
        r := ParseBlock();
        return;
      }
      var ok, rs := ParseRedirs();
      if !ok {
        return Panic(MissingFile);
      }
      r := ParseWords(rs);
    }

    /** parsepipe. */
    method ParsePipe() returns (r: Outcome)
      requires Valid()
      modifies this`ps
      ensures Valid() && Agrees(ShellGrammar.ParsePipe(old(Left())), r, Left())
      decreases |Left()|, 2
    {
      hide Lex, ParseExec;
      r := ParseCommand();
      if r.Panic? {
        return;
      }
      OneSet(Left());
      var bar := Peek("|");
      if bar {
        var _, _, _ := GetToken();
        var right := ParsePipe();
        if right.Panic? {
          return right;
        }
        r := Tree(Pipe(r.cmd, right.cmd));
      }
    }

    /** parseline. */
    method ParseLine() returns (r: Outcome)
      requires Valid()
      modifies this`ps
      ensures Valid() && Agrees(ShellGrammar.ParseLine(old(Left())), r, Left())
      decreases |Left()|, 3
    {
      hide Lex, ShellGrammar.ParsePipe;
      ghost var ts := Left();
      r := ParsePipe();
      if r.Panic? {
        return;
      }
      OneSet(Left());
      var amp := Peek("&");
      while amp
        invariant Valid() && r.Tree? && (amp <==> Left() != [] && Left()[0].Amp?)
        invariant ShellGrammar.ParseLine(ts) == ParseBacks(r.cmd, Left()) && |Left()| <= |ts|
        decreases |Left()|
      {
        var _, _, _ := GetToken();
        r := Tree(Back(r.cmd));
        OneSet(Left());
        amp := Peek("&");
      }
      OneSet(Left());
      var semi := Peek(";");
      if semi {
        var _, _, _ := GetToken();
        var right := ParseLine();
        if right.Panic? {
          return right;
        }
        r := Tree(List(r.cmd, right.cmd));
      }
    }

    /** nulterminate: a NUL at the end of every word of the tree, nothing else. */
    method NulTerminate(c: Cmd<Span>)
      requires forall e :: e in Ends(c) ==> e < buf.Length
      modifies buf
      ensures forall i :: 0 <= i < buf.Length ==> buf[i] == if i in Ends(c) then NUL else old(buf[i])
      decreases c
    {
      match c {
        case Exec(argv) =>
          var i := 0;
          while i < |argv|
            invariant 0 <= i <= |argv|
            invariant forall k :: 0 <= k < buf.Length ==>
                        buf[k] == if k in (set j | 0 <= j < i :: argv[j].e) then NUL else old(buf[k])
          {
            assert argv[i].e in Ends(c);
            buf[argv[i].e] := NUL;
            i := i + 1;
          }
        case Redir(d, w, _) =>
          assert Ends(c) == Ends(d) + {w.e};
          assert forall e :: e in Ends(d) ==> e in Ends(c);
          NulTerminate(d);
          buf[w.e] := NUL;
        case Pipe(l, r) =>
          assert Ends(c) == Ends(l) + Ends(r);
          assert forall e :: e in Ends(l) || e in Ends(r) ==> e in Ends(c);
          NulTerminate(l);
          NulTerminate(r);
        case List(l, r) =>
          assert Ends(c) == Ends(l) + Ends(r);
          assert forall e :: e in Ends(l) || e in Ends(r) ==> e in Ends(c);
          NulTerminate(l);
          NulTerminate(r);
        case Back(d) =>
          assert forall e :: e in Ends(d) ==> e in Ends(c);
          NulTerminate(d);
      }
    }

    /** parsecmd: the grammar's tree, in which every word reads as the C string that
        stood in the line; or the grammar's panic, with the line as it was. */
    method ParseCmd() returns (r: Outcome)
      requires Valid() && ps == 0
      modifies this`ps, buf
      ensures Agrees(Parse(Lex(old(Line()), 0)), r, [])
      ensures r.Tree? ==>
        forall w :: w in CmdWords(r.cmd) ==> w.q < w.e <= n && Reads(buf[..], w.q, old(Line())[w.q..w.e])
      ensures r.Panic? ==> buf[..] == old(buf[..])
    {
      ghost var line := Line();
      r := ParseLine();
      if r.Panic? {
        return;
      }
      var _ := Peek("");
      AtEnd(line, ps);
      if ps != n {
        return Panic(Leftovers);
      }
      WordsOfLine(line, r.cmd);
      NulTerminate(r.cmd);
      forall w | w in CmdWords(r.cmd) ensures Reads(buf[..], w.q, line[w.q..w.e]) {
        Terminated(line, r.cmd, buf[..], w);
      }
    }
  }

  lemma AtEnd(s: string, p: nat)
    requires p <= |s| && NoNul(s) && (p < |s| ==> !IsSpace(s[p]))
    ensures Lex(s, p) == [] <==> p == |s|
  {
    SkipSpaceTo(s, p, p);
  }

  /** Every word of the tree is a word of the line. */
  lemma WordsOfLine(s: string, c: Cmd<Span>)
    requires NoNul(s) && ParseLine(Lex(s, 0)) == Ok(c, [])
    ensures forall w :: w in CmdWords(c) ==> IsWord(s, w)
    ensures forall e :: e in Ends(c) ==> e <= |s| && (e < |s| ==> !IsWordChar(s[e]))
  {
    LineKeeps(Lex(s, 0));
    var none: seq<Token<Span>> := [];
    assert TokenWords(none) == multiset{};
    forall w | w in CmdWords(c) ensures IsWord(s, w) {
      LexWords(s, 0, w);
    }
    forall e | e in Ends(c) ensures e <= |s| && (e < |s| ==> !IsWordChar(s[e])) {
      var w := EndsAreEnds(c, e);
    }
  }

  /** Clearing the ends of the words leaves each word whole. */
  lemma Terminated(s: string, c: Cmd<Span>, buf: seq<char>, w: Span)
    requires NoNul(s) && w in CmdWords(c) && IsWord(s, w)
    requires forall e :: e in Ends(c) ==> e <= |s| && (e < |s| ==> !IsWordChar(s[e]))
    requires |buf| == |s| + 1
    requires forall i :: 0 <= i < |buf| ==> buf[i] == if i in Ends(c) || i == |s| then NUL else s[i]
    ensures Reads(buf, w.q, s[w.q..w.e])
  {
    WordsEnd(c, w);
  }

  /** The shell's round trip: print any tree of valid words, at most 9 to an exec
      node, put white space around its tokens at will, and parsecmd's tree spells
      the same commands. */
  lemma ShellRoundTrip(c: Cmd<string>, gaps: seq<string>)
    requires ShellGrammar.Fits(c) && Spacing(PrintLine(c), gaps)
    ensures var s := Render(PrintLine(c), gaps);
            NoNul(s) && MapParsed(TextOf(s), Parse(Lex(s, 0))) == Ok(c, [])
  {
    var ts := PrintLine(c);
    RenderNoNul(ts, gaps);
    var s := Render(ts, gaps);
    assert s[0..] == s;
    LexRender(s, 0, ts, gaps);
    ReadLine(c, []);
    assert ts + [] == ts;
    LineMap(TextOf(s), Lex(s, 0));
    var none: seq<Token<Span>> := [];
    assert MapTokens(TextOf(s), none) == [];
  }
}

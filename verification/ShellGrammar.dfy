/** The grammar of sh.c on tokens: what parseline, parsepipe, parseexec,
    parseblock and parseredirs do once gettoken has cut the line, and a printer
    that they invert. */
module ShellGrammar {

  const MAXARGS := 10

  /** The characters "|();&<>", the pair ">>" and words. */
  datatype Token<W> = Bar | Open | Close | Semi | Amp | Less | Greater | Append | Word(w: W)

  /** The command tree. ">" and ">>" build the same node. */
  datatype Cmd<W> =
    | Exec(argv: seq<W>)
    | Redir(cmd: Cmd<W>, file: W, out: bool)
    | Pipe(left: Cmd<W>, right: Cmd<W>)
    | List(left: Cmd<W>, right: Cmd<W>)
    | Back(cmd: Cmd<W>)

  /** The panics of the parser. */
  datatype Error = MissingFile | Syntax | TooManyArgs | MissingParen | Leftovers

  datatype Parsed<W> = Ok(cmd: Cmd<W>, rest: seq<Token<W>>) | Err(e: Error)

  datatype Redirs<W> = Redirections(rs: seq<(W, bool)>, rest: seq<Token<W>>) | NoFile

  /** peek("<>"). */
  predicate AtRedir<W>(ts: seq<Token<W>>) {
    ts != [] && (ts[0].Less? || ts[0].Greater? || ts[0].Append?)
  }

  /** peek("|)&;"), or the end of the line. */
  predicate AtStop<W>(ts: seq<Token<W>>) {
    ts == [] || ts[0].Bar? || ts[0].Close? || ts[0].Amp? || ts[0].Semi?
  }

  function Wrap<W>(c: Cmd<W>, rs: seq<(W, bool)>): Cmd<W> {
    if rs == [] then c
    else Redir(Wrap(c, rs[..|rs| - 1]), rs[|rs| - 1].0, rs[|rs| - 1].1)
  }

  /** parseredirs. */
  function ParseRedirs<W>(ts: seq<Token<W>>): (r: Redirs<W>)
    ensures r.Redirections? ==> |r.rest| <= |ts| && !AtRedir(r.rest)
  {
    if !AtRedir(ts) then Redirections([], ts)
    else if |ts| < 2 || !ts[1].Word? then NoFile
    else
      match ParseRedirs(ts[2..])
      case NoFile => NoFile
      case Redirections(rs, rest) => Redirections([(ts[1].w, !ts[0].Less?)] + rs, rest)
  }

  /** parseexec's loop, with the words and redirections so far. */
  function ParseArgs<W>(argv: seq<W>, rs: seq<(W, bool)>, ts: seq<Token<W>>): (r: Parsed<W>)
    ensures r.Ok? ==> |r.rest| <= |ts|
    decreases |ts|
  {
    if AtStop(ts) then Ok(Wrap(Exec(argv), rs), ts)
    else if !ts[0].Word? then Err(Syntax)
    else if |argv| + 1 >= MAXARGS then Err(TooManyArgs)
    else
      match ParseRedirs(ts[1..])
      case NoFile => Err(MissingFile)
      case Redirections(more, rest) => ParseArgs(argv + [ts[0].w], rs + more, rest)
  }

  /** parseexec, and parseblock for a parenthesis. */
  function ParseExec<W>(ts: seq<Token<W>>): (r: Parsed<W>)
    ensures r.Ok? ==> |r.rest| <= |ts|
    decreases |ts|, 0
  {
    if ts != [] && ts[0].Open? then
      match ParseLine(ts[1..])
      case Err(e) => Err(e)
      case Ok(c, rest) =>
        if (rest == [] || !rest[0].Close?) then Err(MissingParen)
        else
          match ParseRedirs(rest[1..])
          case NoFile => Err(MissingFile)
          case Redirections(rs, rest2) => Ok(Wrap(c, rs), rest2)
    else
      match ParseRedirs(ts)
      case NoFile => Err(MissingFile)
      case Redirections(rs, rest) => ParseArgs([], rs, rest)
  }

  /** parsepipe. */
  function ParsePipe<W>(ts: seq<Token<W>>): (r: Parsed<W>)
    ensures r.Ok? ==> |r.rest| <= |ts|
    decreases |ts|, 1
  {
    match ParseExec(ts)
    case Err(e) => Err(e)
    case Ok(c, rest) =>
      if (rest == [] || !rest[0].Bar?) then Ok(c, rest)
      else
        match ParsePipe(rest[1..])
        case Err(e) => Err(e)
        case Ok(d, rest2) => Ok(Pipe(c, d), rest2)
  }

  /** parseline. */
  function ParseLine<W>(ts: seq<Token<W>>): (r: Parsed<W>)
    ensures r.Ok? ==> |r.rest| <= |ts|
    decreases |ts|, 3
  {
    match ParsePipe(ts)
    case Err(e) => Err(e)
    case Ok(c, rest) => ParseBacks(c, rest)
  }

  /** The end of parseline: any number of '&', then perhaps ';' and another line. */
  function ParseBacks<W>(c: Cmd<W>, ts: seq<Token<W>>): (r: Parsed<W>)
    ensures r.Ok? ==> |r.rest| <= |ts|
    decreases |ts|, 2
  {
    if ts != [] && ts[0].Amp? then ParseBacks(Back(c), ts[1..])
    else if (ts == [] || !ts[0].Semi?) then Ok(c, ts)
    else
      match ParseLine(ts[1..])
      case Err(e) => Err(e)
      case Ok(d, rest) => Ok(List(c, d), rest)
  }

  /** parsecmd. */
  function Parse<W>(ts: seq<Token<W>>): Parsed<W> {
    match ParseLine(ts)
    case Err(e) => Err(e)
    case Ok(c, rest) => if rest == [] then Ok(c, []) else Err(Leftovers)
  }

  // ------------------------------------------------------------ words and redirections in any order

  /** One word of a simple command, or one of its redirections: "<", ">" and ">>". */
  datatype Item<W> = Arg(w: W) | Input(w: W) | Output(w: W) | AppendTo(w: W)

  function ItemToken<W>(x: Item<W>): seq<Token<W>> {
    match x
    case Arg(w) => [Word(w)]
    case Input(w) => [Less, Word(w)]
    case Output(w) => [Greater, Word(w)]
    case AppendTo(w) => [Append, Word(w)]
  }

  function ItemTokens<W>(items: seq<Item<W>>): seq<Token<W>> {
    if items == [] then [] else ItemToken(items[0]) + ItemTokens(items[1..])
  }

  function ItemArgs<W>(items: seq<Item<W>>): seq<W> {
    if items == [] then [] else (if items[0].Arg? then [items[0].w] else []) + ItemArgs(items[1..])
  }

  /** The files, and whether they are written. */
  function ItemFiles<W>(items: seq<Item<W>>): seq<(W, bool)> {
    if items == [] then []
    else (if items[0].Arg? then [] else [(items[0].w, !items[0].Input?)]) + ItemFiles(items[1..])
  }

  /** How many items come before the first word. */
  function Leading<W>(items: seq<Item<W>>): (k: nat)
    ensures k <= |items| && (k < |items| ==> items[k].Arg?)
  {
    if items == [] || items[0].Arg? then 0 else 1 + Leading(items[1..])
  }

  lemma FileItem<W>(x: Item<W>, ts: seq<Token<W>>, rs: seq<(W, bool)>, rest: seq<Token<W>>)
    requires !x.Arg? && ParseRedirs(ts) == Redirections(rs, rest)
    ensures ParseRedirs(ItemToken(x) + ts) == Redirections([(x.w, !x.Input?)] + rs, rest)
  {
    var us := ItemToken(x) + ts;
    assert us[2..] == ts && us[1] == Word(x.w);
  }

  lemma Regroup<T>(a: seq<T>, b: seq<T>, c: seq<T>)
    ensures (a + b) + c == a + (b + c)
  {
  }

  lemma FirstItem<W>(items: seq<Item<W>>, rest: seq<Token<W>>)
    ensures items == [] ==> ItemTokens(items) + rest == rest
    ensures items != [] ==> ItemTokens(items) + rest == ItemToken(items[0]) + (ItemTokens(items[1..]) + rest)
  {
    hide ItemToken;
    if items == [] {
      assert ItemTokens(items) + rest == rest;
    } else {
      Regroup(ItemToken(items[0]), ItemTokens(items[1..]), rest);
    }
  }

  lemma ItemParts<W>(items: seq<Item<W>>)
    requires items != []
    ensures ItemArgs(items) == (if items[0].Arg? then [items[0].w] else []) + ItemArgs(items[1..])
    ensures ItemFiles(items) == (if items[0].Arg? then [] else [(items[0].w, !items[0].Input?)]) + ItemFiles(items[1..])
  {
  }

  lemma NoLeading<W>(items: seq<Item<W>>, rest: seq<Token<W>>)
    requires AtStop(rest) && Leading(items) == 0
    ensures ParseRedirs(ItemTokens(items) + rest) == Redirections([], ItemTokens(items) + rest)
  {
    hide ParseRedirs, ItemTokens;
    FirstItem(items, rest);
    NoRedirs(ItemTokens(items) + rest);
  }

  lemma Split<T>(s: seq<T>, k: nat)
    requires 0 < k <= |s|
    ensures s[1..][k - 1..] == s[k..] && s[..k][1..] == s[1..][..k - 1] && s[..k][0] == s[0] && s[..k] != []
  {
  }

  lemma WholeSeq<T>(s: seq<T>)
    ensures s[0..] == s && s[..0] == []
  {
  }

  /** The redirections before the first word. */
  lemma {:induction false} RedirItems<W>(items: seq<Item<W>>, rest: seq<Token<W>>)
    requires AtStop(rest)
    ensures var k := Leading(items);
      ParseRedirs(ItemTokens(items) + rest) == Redirections(ItemFiles(items[..k]), ItemTokens(items[k..]) + rest)
  {
    hide ParseRedirs, ItemToken, ItemTokens, ItemFiles, AtStop;
    var k := Leading(items);
    if k == 0 {
      WholeSeq(items);
      NoLeading(items, rest);
      NoFiles<W>();
    } else {
      FirstItem(items, rest);
      RedirItems(items[1..], rest);
      Split(items, k);
      ItemParts(items[..k]);
      FileItem(items[0], ItemTokens(items[1..]) + rest, ItemFiles(items[1..][..k - 1]), ItemTokens(items[k..]) + rest);
    }
  }

  lemma NoFiles<W>()
    ensures ItemFiles<W>([]) == []
  {
  }

  lemma {:induction false} LeadingParts<W>(items: seq<Item<W>>)
    ensures var k := Leading(items);
      ItemArgs(items) == ItemArgs(items[k..]) && ItemFiles(items) == ItemFiles(items[..k]) + ItemFiles(items[k..])
  {
    hide ItemArgs, ItemFiles;
    var k := Leading(items);
    if k == 0 {
      WholeSeq(items);
      NoFiles<W>();
    } else {
      LeadingParts(items[1..]);
      Split(items, k);
      ItemParts(items);
      ItemParts(items[..k]);
      Regroup([(items[0].w, !items[0].Input?)], ItemFiles(items[1..][..k - 1]), ItemFiles(items[k..]));
    }
  }

  lemma WordItem<W>(argv: seq<W>, rs: seq<(W, bool)>, w: W, ts: seq<Token<W>>, more: seq<(W, bool)>,
          rest: seq<Token<W>>)
    requires ParseRedirs(ts) == Redirections(more, rest)
    ensures ParseArgs(argv, rs, ItemToken(Arg(w)) + ts) ==
      if |argv| + 1 >= MAXARGS then Err(TooManyArgs) else ParseArgs(argv + [w], rs + more, rest)
  {
    hide ParseRedirs;
    assert (ItemToken(Arg(w)) + ts)[1..] == ts;
  }

  lemma {:induction false} ArgItems<W>(argv: seq<W>, rs: seq<(W, bool)>, items: seq<Item<W>>, rest: seq<Token<W>>)
    requires AtStop(rest) && Leading(items) == 0 && |argv| < MAXARGS
    ensures ParseArgs(argv, rs, ItemTokens(items) + rest) ==
      if |argv + ItemArgs(items)| < MAXARGS then Ok(Wrap(Exec(argv + ItemArgs(items)), rs + ItemFiles(items)), rest)
      else Err(TooManyArgs)
    decreases |items|
  {
    hide ParseArgs, ParseRedirs, ItemToken, ItemTokens, ItemArgs, ItemFiles, AtStop, Wrap;
    FirstItem(items, rest);
    if items == [] {
      ArgsEnd(argv, rs, rest);
      NoParts(argv, rs);
    } else {
      var w, more := items[0].w, items[1..];
      var k := Leading(more);
      RedirItems(more, rest);
      LeadingParts(more);
      ItemParts(items);
      WordItem(argv, rs, w, ItemTokens(more) + rest, ItemFiles(more[..k]), ItemTokens(more[k..]) + rest);
      Regroup(argv, [w], ItemArgs(more));
      Regroup(rs, ItemFiles(more[..k]), ItemFiles(more[k..]));
      Nothing(ItemFiles(more));
      if |argv| + 1 < MAXARGS {
        ArgItems(argv + [w], rs + ItemFiles(more[..k]), more[k..], rest);
      }
    }
  }

  lemma Nothing<T>(s: seq<T>)
    ensures [] + s == s && s + [] == s
  {
  }

  lemma NoParts<W>(argv: seq<W>, rs: seq<(W, bool)>)
    ensures argv + ItemArgs<W>([]) == argv && rs + ItemFiles<W>([]) == rs
  {
  }

  /** A simple command is its words in order, inside its redirections in order, the last one
      outermost, wherever among the words they stand; with ten words or more it is an error. */
  lemma ExecItems<W>(items: seq<Item<W>>, rest: seq<Token<W>>)
    requires AtStop(rest)
    ensures ParseExec(ItemTokens(items) + rest) ==
      if |ItemArgs(items)| < MAXARGS then Ok(Wrap(Exec(ItemArgs(items)), ItemFiles(items)), rest) else Err(TooManyArgs)
  {
    hide ParseRedirs, ParseArgs, ParseLine, Wrap, ItemArgs, ItemFiles;
    var k := Leading(items);
    RedirItems(items, rest);
    LeadingParts(items);
    ArgItems([], ItemFiles(items[..k]), items[k..], rest);
    Nothing(ItemArgs(items));
    NotOpen(items, rest);
  }

  lemma NotOpen<W>(items: seq<Item<W>>, rest: seq<Token<W>>)
    requires AtStop(rest)
    ensures ItemTokens(items) + rest != [] ==> !(ItemTokens(items) + rest)[0].Open?
  {
    hide ItemTokens;
    FirstItem(items, rest);
  }

  // ------------------------------------------------------------ printing

  function Words<W>(argv: seq<W>): (ts: seq<Token<W>>)
    ensures |ts| == |argv| && forall i :: 0 <= i < |ts| ==> ts[i] == Word(argv[i])
  {
    seq(|argv|, i requires 0 <= i < |argv| => Word(argv[i]))
  }

  function RedirTokens<W>(w: W, out: bool): seq<Token<W>> {
    [if out then Greater else Less, Word(w)]
  }

  /** A command as parseexec reads it: parentheses only where they are needed. */
  function PrintExec<W>(c: Cmd<W>): seq<Token<W>>
    decreases c, 1
  {
    match c
    case Exec(argv) => Words(argv)
    case Redir(d, w, out) => PrintExec(d) + RedirTokens(w, out)
    case _ => [Open] + PrintCompound(c) + [Close]
  }

  /** A pipe, a list or a background command without parentheses of its own. */
  function PrintCompound<W>(c: Cmd<W>): seq<Token<W>>
    decreases c, 0
  {
    match c
    case Pipe(l, r) => PrintExec(l) + [Bar] + PrintPipe(r)
    case List(l, r) => PrintBack(l) + [Semi] + PrintLine(r)
    case Back(d) => PrintBack(d) + [Amp]
    case _ => []
  }

  function PrintPipe<W>(c: Cmd<W>): seq<Token<W>>
    decreases c, 2
  {
    if c.Pipe? then PrintCompound(c) else PrintExec(c)
  }

  function PrintBack<W>(c: Cmd<W>): seq<Token<W>>
    decreases c, 3
  {
    if c.Back? then PrintCompound(c) else PrintPipe(c)
  }

  function PrintLine<W>(c: Cmd<W>): seq<Token<W>>
    decreases c, 4
  {
    if c.List? then PrintCompound(c) else PrintBack(c)
  }

  /** No exec node has more words than the parser takes. */
  predicate Fits<W>(c: Cmd<W>) {
    match c
    case Exec(argv) => |argv| < MAXARGS
    case Redir(d, _, _) => Fits(d)
    case Pipe(l, r) => Fits(l) && Fits(r)
    case List(l, r) => Fits(l) && Fits(r)
    case Back(d) => Fits(d)
  }

  // ------------------------------------------------------------ round trip

  function RedirsTokens<W>(rs: seq<(W, bool)>): seq<Token<W>> {
    if rs == [] then [] else RedirTokens(rs[0].0, rs[0].1) + RedirsTokens(rs[1..])
  }

  lemma {:induction false} ReadRedirs<W>(rs: seq<(W, bool)>, rest: seq<Token<W>>)
    requires !AtRedir(rest)
    ensures ParseRedirs(RedirsTokens(rs) + rest) == Redirections(rs, rest)
  {
    hide ParseRedirs, RedirTokens, AtRedir;
    if rs == [] {
      assert RedirsTokens(rs) + rest == rest;
      NoRedirs(rest);
    } else {
      var more := RedirsTokens(rs[1..]) + rest;
      ReadRedirs(rs[1..], rest);
      assert RedirsTokens(rs) + rest == RedirTokens(rs[0].0, rs[0].1) + more;
      ReadRedir(rs[0].0, rs[0].1, more, rs[1..], rest);
      assert rs == [rs[0]] + rs[1..];
    }
  }

  lemma NoRedirs<W>(rest: seq<Token<W>>)
    requires !AtRedir(rest)
    ensures ParseRedirs(rest) == Redirections([], rest)
  {
  }

  lemma ReadRedir<W>(w: W, out: bool, more: seq<Token<W>>, rs: seq<(W, bool)>, rest: seq<Token<W>>)
    requires ParseRedirs(more) == Redirections(rs, rest)
    ensures ParseRedirs(RedirTokens(w, out) + more) == Redirections([(w, out)] + rs, rest)
  {
    var ts := RedirTokens(w, out) + more;
    assert ts[0] == (if out then Greater else Less) && ts[1] == Word(w) && ts[2..] == more;
  }

  /** One word: parseexec's loop goes on after it and its redirections. */
  lemma ReadWord<W>(done: seq<W>, w: W, rs: seq<(W, bool)>, rest: seq<Token<W>>)
    requires |done| + 1 < MAXARGS && !AtRedir(rest)
    ensures ParseArgs(done, [], [Word(w)] + (RedirsTokens(rs) + rest)) == ParseArgs(done + [w], rs, rest)
  {
    var ts := [Word(w)] + (RedirsTokens(rs) + rest);
    assert ts[0] == Word(w) && ts[1..] == RedirsTokens(rs) + rest;
    ReadRedirs(rs, rest);
    assert [] + rs == rs;
  }

  lemma {:induction false} ReadArgs<W>(done: seq<W>, argv: seq<W>, rs: seq<(W, bool)>, rest: seq<Token<W>>)
    requires argv != [] && |done| + |argv| < MAXARGS && AtStop(rest)
    ensures ParseArgs(done, [], Words(argv) + (RedirsTokens(rs) + rest)) == Ok(Wrap(Exec(done + argv), rs), rest)
    decreases |argv|
  {
    hide ParseRedirs, RedirsTokens, Wrap, ParseArgs;
    var tail := RedirsTokens(rs) + rest;
    if |argv| == 1 {
      assert Words(argv) == [Word(argv[0])];
      ReadWord(done, argv[0], rs, rest);
      ArgsEnd(done + [argv[0]], rs, rest);
      assert done + [argv[0]] == done + argv;
    } else {
      var more := Words(argv[1..]) + tail;
      NoTokens<W>();
      assert Words(argv) + tail == [Word(argv[0])] + more;
      assert [] + more == more;
      ReadWord(done, argv[0], [], more);
      ReadArgs(done + [argv[0]], argv[1..], rs, rest);
      assert done + [argv[0]] + argv[1..] == done + argv;
    }
  }

  lemma NoTokens<W>()
    ensures RedirsTokens<W>([]) == []
  {
  }

  lemma ArgsEnd<W>(argv: seq<W>, rs: seq<(W, bool)>, rest: seq<Token<W>>)
    requires AtStop(rest)
    ensures ParseArgs(argv, rs, rest) == Ok(Wrap(Exec(argv), rs), rest)
  {
  }

  /** A redirection chain over a command that is not one. */
  lemma {:induction false} Unwrap<W>(c: Cmd<W>) returns (b: Cmd<W>, rs: seq<(W, bool)>)
    ensures !b.Redir? && c == Wrap(b, rs) && (Fits(c) ==> Fits(b)) && (b == c || b < c)
    ensures PrintExec(c) == PrintExec(b) + RedirsTokens(rs)
  {
    if c.Redir? {
      var d, qs := Unwrap(c.cmd);
      b, rs := d, qs + [(c.file, c.out)];
      WrapLast(d, qs, (c.file, c.out));
      RedirsLast(qs, (c.file, c.out));
      assert PrintExec(c) == PrintExec(d) + (RedirsTokens(qs) + RedirTokens(c.file, c.out));
    } else {
      b, rs := c, [];
      assert PrintExec(c) == PrintExec(c) + [];
    }
  }

  lemma WrapLast<W>(c: Cmd<W>, rs: seq<(W, bool)>, r: (W, bool))
    ensures Wrap(c, rs + [r]) == Redir(Wrap(c, rs), r.0, r.1)
  {
    assert (rs + [r])[..|rs|] == rs;
  }

  lemma {:induction false} RedirsLast<W>(rs: seq<(W, bool)>, r: (W, bool))
    ensures RedirsTokens(rs + [r]) == RedirsTokens(rs) + RedirTokens(r.0, r.1)
  {
    if rs != [] {
      RedirsLast(rs[1..], r);
      assert (rs + [r])[1..] == rs[1..] + [r];
    }
  }

  /** What may follow a pipe, and a line. */
  predicate EndsPipe<W>(rest: seq<Token<W>>) { AtStop(rest) && (rest == [] || !rest[0].Bar?) }
  predicate EndsLine<W>(rest: seq<Token<W>>) { rest == [] || rest[0].Close? }

  lemma {:induction false} ReadExec<W>(c: Cmd<W>, rest: seq<Token<W>>)
    requires Fits(c) && AtStop(rest)
    ensures ParseExec(PrintExec(c) + rest) == Ok(c, rest)
    decreases c, 2
  {
    var b, rs := Unwrap(c);
    var tail := RedirsTokens(rs) + rest;
    assert PrintExec(c) + rest == PrintExec(b) + tail;
    if b.Exec? {
      ReadWords(b.argv, rs, rest);
    } else {
      ReadCompound(b, [Close] + tail);
      ReadBlock(b, rs, rest);
    }
  }

  lemma ReadWords<W>(argv: seq<W>, rs: seq<(W, bool)>, rest: seq<Token<W>>)
    requires |argv| < MAXARGS && AtStop(rest)
    ensures ParseExec(Words(argv) + (RedirsTokens(rs) + rest)) == Ok(Wrap(Exec(argv), rs), rest)
  {
    hide RedirsTokens, Wrap, ParseExec, ParseArgs, ParseRedirs;
    var tail := RedirsTokens(rs) + rest;
    var ts := Words(argv) + tail;
    if argv == [] {
      assert ts == tail;
      RedirsFirst(rs, rest);
      ReadRedirs(rs, rest);
      ExecPlain(ts, rs, rest);
      ArgsEnd([], rs, rest);
    } else {
      assert ts[0] == Word(argv[0]);
      NoRedirs(ts);
      ExecPlain(ts, [], ts);
      ReadArgs([], argv, rs, rest);
      assert [] + argv == argv;
    }
  }

  lemma ExecPlain<W>(ts: seq<Token<W>>, rs: seq<(W, bool)>, rest: seq<Token<W>>)
    requires (ts == [] || !ts[0].Open?) && ParseRedirs(ts) == Redirections(rs, rest)
    ensures ParseExec(ts) == ParseArgs([], rs, rest)
  {
    hide ParseRedirs, ParseArgs, ParseLine;
  }

  lemma RedirsFirst<W>(rs: seq<(W, bool)>, rest: seq<Token<W>>)
    requires AtStop(rest)
    ensures RedirsTokens(rs) + rest == [] || !(RedirsTokens(rs) + rest)[0].Open?
  {
  }

  lemma ReadBlock<W>(b: Cmd<W>, rs: seq<(W, bool)>, rest: seq<Token<W>>)
    requires !b.Exec? && !b.Redir? && AtStop(rest)
    requires var tail := [Close] + (RedirsTokens(rs) + rest);
             ParseLine(PrintCompound(b) + tail) == Ok(b, tail)
    ensures ParseExec(PrintExec(b) + (RedirsTokens(rs) + rest)) == Ok(Wrap(b, rs), rest)
  {
    hide PrintCompound, PrintExec, RedirsTokens, ParseExec, ParseLine, ParsePipe, ParseArgs, Wrap, ParseRedirs;
    var tail := RedirsTokens(rs) + rest;
    BlockTokens(b, tail);
    ReadRedirs(rs, rest);
    ExecBlock(PrintExec(b) + tail, b, tail, rs, rest);
  }

  lemma BlockTokens<W>(b: Cmd<W>, tail: seq<Token<W>>)
    requires !b.Exec? && !b.Redir?
    ensures var ts := PrintExec(b) + tail; ts != [] && ts[0] == Open && ts[1..] == PrintCompound(b) + ([Close] + tail)
  {
    hide PrintCompound;
  }

  lemma ExecBlock<W>(ts: seq<Token<W>>, b: Cmd<W>, tail: seq<Token<W>>, rs: seq<(W, bool)>, rest: seq<Token<W>>)
    requires ts != [] && ts[0].Open? && ParseLine(ts[1..]) == Ok(b, [Close] + tail)
    requires ParseRedirs(tail) == Redirections(rs, rest)
    ensures ParseExec(ts) == Ok(Wrap(b, rs), rest)
  {
    hide ParseLine, ParseRedirs, Wrap, ParseArgs;
    assert ([Close] + tail)[1..] == tail;
  }

  lemma {:induction false} ReadCompound<W>(c: Cmd<W>, rest: seq<Token<W>>)
    requires Fits(c) && !c.Exec? && !c.Redir? && EndsLine(rest)
    ensures ParseLine(PrintCompound(c) + rest) == Ok(c, rest)
    decreases c, 1
  {
    match c {
      case Pipe(l, r) =>
        ReadPipe(c, rest);
      case List(l, r) =>
        var more := [Semi] + (PrintLine(r) + rest);
        assert PrintCompound(c) + rest == PrintBack(l) + more;
        ReadBack(l, more);
        assert more[1..] == PrintLine(r) + rest;
        ReadLine(r, rest);
      case Back(d) =>
        var more := [Amp] + rest;
        assert PrintCompound(c) + rest == PrintBack(d) + more;
        ReadBack(d, more);
        assert more[1..] == rest;
    }
  }

  lemma {:induction false} ReadPipe<W>(c: Cmd<W>, rest: seq<Token<W>>)
    requires Fits(c) && EndsPipe(rest)
    ensures ParsePipe(PrintPipe(c) + rest) == Ok(c, rest)
    decreases c, if c.Pipe? then 0 else 3
  {
    if c.Pipe? {
      var more := [Bar] + (PrintPipe(c.right) + rest);
      assert PrintPipe(c) + rest == PrintExec(c.left) + more;
      ReadExec(c.left, more);
      assert more[1..] == PrintPipe(c.right) + rest;
      ReadPipe(c.right, rest);
    } else {
      ReadExec(c, rest);
    }
  }

  /** Reading a background command leaves parseline in the middle of its '&' loop. */
  lemma {:induction false} ReadBack<W>(c: Cmd<W>, rest: seq<Token<W>>)
    requires Fits(c) && EndsPipe(rest)
    ensures ParseLine(PrintBack(c) + rest) == ParseBacks(c, rest)
    decreases c, 4
  {
    if c.Back? {
      var more := [Amp] + rest;
      assert PrintBack(c) + rest == PrintBack(c.cmd) + more;
      ReadBack(c.cmd, more);
      assert more[1..] == rest;
    } else {
      ReadPipe(c, rest);
    }
  }

  lemma {:induction false} ReadLine<W>(c: Cmd<W>, rest: seq<Token<W>>)
    requires Fits(c) && EndsLine(rest)
    ensures ParseLine(PrintLine(c) + rest) == Ok(c, rest)
    decreases c, 5
  {
    if c.List? {
      ReadCompound(c, rest);
    } else {
      ReadBack(c, rest);
    }
  }

  /** Round trip: parsing the printed tree gives the tree back. */
  lemma RoundTrip<W>(c: Cmd<W>)
    requires Fits(c)
    ensures Parse(PrintLine(c)) == Ok(c, [])
  {
    ReadLine(c, []);
    assert PrintLine(c) + [] == PrintLine(c);
  }

  // ------------------------------------------------------------ what a parse can give

  lemma {:induction false} WrapFits<W>(c: Cmd<W>, rs: seq<(W, bool)>)
    requires Fits(c)
    ensures Fits(Wrap(c, rs))
    decreases |rs|
  {
    if rs != [] {
      WrapFits(c, rs[..|rs| - 1]);
    }
  }

  lemma {:induction false} ArgsFit<W>(argv: seq<W>, rs: seq<(W, bool)>, ts: seq<Token<W>>)
    requires |argv| < MAXARGS && ParseArgs(argv, rs, ts).Ok?
    ensures Fits(ParseArgs(argv, rs, ts).cmd)
    decreases |ts|
  {
    if AtStop(ts) {
      WrapFits(Exec(argv), rs);
    } else {
      var more := ParseRedirs(ts[1..]);
      ArgsFit(argv + [ts[0].w], rs + more.rs, more.rest);
    }
  }

  lemma {:induction false} ExecFits<W>(ts: seq<Token<W>>)
    requires ParseExec(ts).Ok?
    ensures Fits(ParseExec(ts).cmd)
    decreases |ts|, 0
  {
    if ts != [] && ts[0].Open? {
      LineFits(ts[1..]);
      var r := ParseLine(ts[1..]);
      WrapFits(r.cmd, ParseRedirs(r.rest[1..]).rs);
    } else {
      ArgsFit([], ParseRedirs(ts).rs, ParseRedirs(ts).rest);
    }
  }

  lemma {:induction false} PipeFits<W>(ts: seq<Token<W>>)
    requires ParsePipe(ts).Ok?
    ensures Fits(ParsePipe(ts).cmd)
    decreases |ts|, 1
  {
    ExecFits(ts);
    var rest := ParseExec(ts).rest;
    if rest != [] && rest[0].Bar? {
      PipeFits(rest[1..]);
    }
  }

  lemma {:induction false} LineFits<W>(ts: seq<Token<W>>)
    requires ParseLine(ts).Ok?
    ensures Fits(ParseLine(ts).cmd)
    decreases |ts|, 3
  {
    PipeFits(ts);
    BacksFit(ParsePipe(ts).cmd, ParsePipe(ts).rest);
  }

  lemma {:induction false} BacksFit<W>(c: Cmd<W>, ts: seq<Token<W>>)
    requires Fits(c) && ParseBacks(c, ts).Ok?
    ensures Fits(ParseBacks(c, ts).cmd)
    decreases |ts|, 2
  {
    if ts != [] && ts[0].Amp? {
      BacksFit(Back(c), ts[1..]);
    } else if ts != [] && ts[0].Semi? {
      LineFits(ts[1..]);
    }
  }

  /** The trees the parser builds are exactly those whose exec nodes have at most 9 words. */
  lemma Trees<W>(c: Cmd<W>)
    ensures (exists ts: seq<Token<W>> :: Parse(ts) == Ok(c, [])) <==> Fits(c)
  {
    if ts: seq<Token<W>> :| Parse(ts) == Ok(c, []) {
      LineFits(ts);
    }
    if Fits(c) {
      RoundTrip(c);
    }
  }

  // ------------------------------------------------------------ no word is lost

  function TokenWords<W>(ts: seq<Token<W>>): multiset<W> {
    if ts == [] then multiset{}
    else (if ts[0].Word? then multiset{ts[0].w} else multiset{}) + TokenWords(ts[1..])
  }

  function CmdWords<W>(c: Cmd<W>): multiset<W> {
    match c
    case Exec(argv) => multiset(argv)
    case Redir(d, w, _) => CmdWords(d) + multiset{w}
    case Pipe(l, r) => CmdWords(l) + CmdWords(r)
    case List(l, r) => CmdWords(l) + CmdWords(r)
    case Back(d) => CmdWords(d)
  }

  function Files<W>(rs: seq<(W, bool)>): multiset<W> {
    if rs == [] then multiset{} else Files(rs[..|rs| - 1]) + multiset{rs[|rs| - 1].0}
  }

  lemma {:induction false} WrapWords<W>(c: Cmd<W>, rs: seq<(W, bool)>)
    ensures CmdWords(Wrap(c, rs)) == CmdWords(c) + Files(rs)
    decreases |rs|
  {
    if rs != [] {
      WrapWords(c, rs[..|rs| - 1]);
    }
  }

  lemma Associates<W>(a: multiset<W>, b: multiset<W>, c: multiset<W>)
    ensures a + b + c == a + (b + c)
  {
  }

  lemma {:induction false} FilesConcat<W>(a: seq<(W, bool)>, b: seq<(W, bool)>)
    ensures Files(a + b) == Files(a) + Files(b)
    decreases |b|
  {
    if b == [] {
      assert a + b == a;
    } else {
      var d, x := b[..|b| - 1], b[|b| - 1];
      FilesConcat(a, d);
      assert (a + b)[..|a + b| - 1] == a + d && (a + b)[|a + b| - 1] == x;
      Associates(Files(a), Files(d), multiset{x.0});
    }
  }

  lemma {:induction false} RedirsKeep<W>(ts: seq<Token<W>>)
    requires ParseRedirs(ts).Redirections?
    ensures TokenWords(ts) == Files(ParseRedirs(ts).rs) + TokenWords(ParseRedirs(ts).rest)
    decreases |ts|
  {
    if AtRedir(ts) {
      RedirsKeep(ts[2..]);
      assert ts[1..][1..] == ts[2..];
      var first := [(ts[1].w, !ts[0].Less?)];
      FilesConcat(first, ParseRedirs(ts[2..]).rs);
      assert first[..0] == [] && Files(first) == multiset{ts[1].w};
    }
  }

  lemma {:induction false} ArgsKeep<W>(argv: seq<W>, rs: seq<(W, bool)>, ts: seq<Token<W>>)
    requires ParseArgs(argv, rs, ts).Ok?
    ensures var r := ParseArgs(argv, rs, ts);
            multiset(argv) + Files(rs) + TokenWords(ts) == CmdWords(r.cmd) + TokenWords(r.rest)
    decreases |ts|
  {
    if AtStop(ts) {
      WrapWords(Exec(argv), rs);
    } else {
      var more := ParseRedirs(ts[1..]);
      RedirsKeep(ts[1..]);
      FilesConcat(rs, more.rs);
      ArgsKeep(argv + [ts[0].w], rs + more.rs, more.rest);
    }
  }

  lemma {:induction false} ExecKeeps<W>(ts: seq<Token<W>>)
    requires ParseExec(ts).Ok?
    ensures TokenWords(ts) == CmdWords(ParseExec(ts).cmd) + TokenWords(ParseExec(ts).rest)
    decreases |ts|, 0
  {
    hide ParseRedirs, ParseArgs, ParseLine, CmdWords, Files, Wrap;
    if ts != [] && ts[0].Open? {
      var r := ParseLine(ts[1..]);
      LineKeeps(ts[1..]);
      RedirsKeep(r.rest[1..]);
      WrapWords(r.cmd, ParseRedirs(r.rest[1..]).rs);
    } else {
      RedirsKeep(ts);
      ArgsKeep([], ParseRedirs(ts).rs, ParseRedirs(ts).rest);
    }
  }

  lemma {:induction false} PipeKeeps<W>(ts: seq<Token<W>>)
    requires ParsePipe(ts).Ok?
    ensures TokenWords(ts) == CmdWords(ParsePipe(ts).cmd) + TokenWords(ParsePipe(ts).rest)
    decreases |ts|, 1
  {
    ExecKeeps(ts);
    var rest := ParseExec(ts).rest;
    if rest != [] && rest[0].Bar? {
      PipeKeeps(rest[1..]);
    }
  }

  /** The tree holds every word that was read, as often as it was read. */
  lemma {:induction false} LineKeeps<W>(ts: seq<Token<W>>)
    requires ParseLine(ts).Ok?
    ensures TokenWords(ts) == CmdWords(ParseLine(ts).cmd) + TokenWords(ParseLine(ts).rest)
    decreases |ts|, 3
  {
    PipeKeeps(ts);
    BacksKeep(ParsePipe(ts).cmd, ParsePipe(ts).rest);
  }

  lemma {:induction false} BacksKeep<W>(c: Cmd<W>, ts: seq<Token<W>>)
    requires ParseBacks(c, ts).Ok?
    ensures var r := ParseBacks(c, ts);
            CmdWords(c) + TokenWords(ts) == CmdWords(r.cmd) + TokenWords(r.rest)
    decreases |ts|, 2
  {
    hide ParsePipe, ParseLine, TokenWords;
    if ts != [] && ts[0].Amp? {
      Skipped(ts);
      BacksKeep(Back(c), ts[1..]);
      assert ParseBacks(c, ts) == ParseBacks(Back(c), ts[1..]);
    } else if ts != [] && ts[0].Semi? {
      Skipped(ts);
      LineKeeps(ts[1..]);
      var r := ParseLine(ts[1..]);
      assert ParseBacks(c, ts) == Ok(List(c, r.cmd), r.rest);
      Associates(CmdWords(c), CmdWords(r.cmd), TokenWords(r.rest));
    }
  }

  lemma Skipped<W>(ts: seq<Token<W>>)
    requires ts != [] && !ts[0].Word?
    ensures TokenWords(ts) == TokenWords(ts[1..])
  {
  }

  // ------------------------------------------------------------ words are opaque

  function MapToken<W, V>(f: W -> V, t: Token<W>): Token<V> {
    match t
    case Bar => Bar
    case Open => Open
    case Close => Close
    case Semi => Semi
    case Amp => Amp
    case Less => Less
    case Greater => Greater
    case Append => Append
    case Word(w) => Word(f(w))
  }

  function MapTokens<W, V>(f: W -> V, ts: seq<Token<W>>): (r: seq<Token<V>>)
    ensures |r| == |ts| && forall i :: 0 <= i < |ts| ==> r[i] == MapToken(f, ts[i])
  {
    seq(|ts|, i requires 0 <= i < |ts| => MapToken(f, ts[i]))
  }

  function MapWords<W, V>(f: W -> V, ws: seq<W>): (r: seq<V>)
    ensures |r| == |ws| && forall i :: 0 <= i < |ws| ==> r[i] == f(ws[i])
  {
    seq(|ws|, i requires 0 <= i < |ws| => f(ws[i]))
  }

  function MapCmd<W, V>(f: W -> V, c: Cmd<W>): Cmd<V> {
    match c
    case Exec(argv) => Exec(MapWords(f, argv))
    case Redir(d, w, out) => Redir(MapCmd(f, d), f(w), out)
    case Pipe(l, r) => Pipe(MapCmd(f, l), MapCmd(f, r))
    case List(l, r) => List(MapCmd(f, l), MapCmd(f, r))
    case Back(d) => Back(MapCmd(f, d))
  }

  function MapParsed<W, V>(f: W -> V, p: Parsed<W>): Parsed<V> {
    match p
    case Ok(c, rest) => Ok(MapCmd(f, c), MapTokens(f, rest))
    case Err(e) => Err(e)
  }

  function MapPairs<W, V>(f: W -> V, rs: seq<(W, bool)>): (r: seq<(V, bool)>)
    ensures |r| == |rs| && forall i :: 0 <= i < |rs| ==> r[i] == (f(rs[i].0), rs[i].1)
  {
    seq(|rs|, i requires 0 <= i < |rs| => (f(rs[i].0), rs[i].1))
  }

  lemma MapDrop<W, V>(f: W -> V, ts: seq<Token<W>>, k: nat)
    requires k <= |ts|
    ensures MapTokens(f, ts)[k..] == MapTokens(f, ts[k..])
  {
  }

  lemma {:induction false} WrapMap<W, V>(f: W -> V, c: Cmd<W>, rs: seq<(W, bool)>)
    ensures Wrap(MapCmd(f, c), MapPairs(f, rs)) == MapCmd(f, Wrap(c, rs))
    decreases |rs|
  {
    if rs != [] {
      WrapMap(f, c, rs[..|rs| - 1]);
      assert MapPairs(f, rs)[..|rs| - 1] == MapPairs(f, rs[..|rs| - 1]);
    }
  }

  lemma MapPairsNone<W, V>(f: W -> V)
    ensures MapPairs(f, []) == []
  {
  }

  lemma MapPair<W, V>(f: W -> V, r: (W, bool))
    ensures MapPairs(f, [r]) == [(f(r.0), r.1)]
  {
  }

  lemma MapPairsPlus<W, V>(f: W -> V, rs: seq<(W, bool)>, qs: seq<(W, bool)>)
    ensures MapPairs(f, rs + qs) == MapPairs(f, rs) + MapPairs(f, qs)
  {
  }

  lemma MapWordsLast<W, V>(f: W -> V, ws: seq<W>, w: W)
    ensures MapWords(f, ws + [w]) == MapWords(f, ws) + [f(w)]
  {
  }

  lemma {:induction false} RedirsMap<W, V>(f: W -> V, ts: seq<Token<W>>)
    ensures ParseRedirs(MapTokens(f, ts)) ==
            match ParseRedirs(ts)
            case NoFile => NoFile
            case Redirections(rs, rest) => Redirections(MapPairs(f, rs), MapTokens(f, rest))
    decreases |ts|
  {
    hide MapPairs;
    MapPairsNone(f);
    if AtRedir(ts) && |ts| >= 2 && ts[1].Word? {
      MapDrop(f, ts, 2);
      RedirsMap(f, ts[2..]);
      var r := ParseRedirs(ts[2..]);
      if r.Redirections? {
        MapPairsPlus(f, [(ts[1].w, !ts[0].Less?)], r.rs);
        MapPair(f, (ts[1].w, !ts[0].Less?));
      }
    }
  }

  lemma {:induction false} ArgsMap<W, V>(f: W -> V, argv: seq<W>, rs: seq<(W, bool)>, ts: seq<Token<W>>)
    ensures ParseArgs(MapWords(f, argv), MapPairs(f, rs), MapTokens(f, ts)) == MapParsed(f, ParseArgs(argv, rs, ts))
    decreases |ts|
  {
    hide MapPairs, MapWords, Wrap, ParseRedirs;
    if AtStop(ts) {
      WrapMap(f, Exec(argv), rs);
    } else if ts[0].Word? && |argv| + 1 < MAXARGS {
      MapDrop(f, ts, 1);
      RedirsMap(f, ts[1..]);
      var r := ParseRedirs(ts[1..]);
      if r.Redirections? {
        ArgsMap(f, argv + [ts[0].w], rs + r.rs, r.rest);
        MapWordsLast(f, argv, ts[0].w);
        MapPairsPlus(f, rs, r.rs);
      }
    }
  }

  lemma {:induction false} ExecMap<W, V>(f: W -> V, ts: seq<Token<W>>)
    ensures ParseExec(MapTokens(f, ts)) == MapParsed(f, ParseExec(ts))
    decreases |ts|, 0
  {
    if ts != [] && ts[0].Open? {
      MapDrop(f, ts, 1);
      LineMap(f, ts[1..]);
      var r := ParseLine(ts[1..]);
      if r.Ok? && r.rest != [] && r.rest[0].Close? {
        MapDrop(f, r.rest, 1);
        RedirsMap(f, r.rest[1..]);
        if ParseRedirs(r.rest[1..]).Redirections? {
          WrapMap(f, r.cmd, ParseRedirs(r.rest[1..]).rs);
        }
      }
    } else {
      RedirsMap(f, ts);
      var r := ParseRedirs(ts);
      if r.Redirections? {
        assert MapWords(f, []) == [];
        ArgsMap(f, [], r.rs, r.rest);
      }
    }
  }

  lemma {:induction false} PipeMap<W, V>(f: W -> V, ts: seq<Token<W>>)
    ensures ParsePipe(MapTokens(f, ts)) == MapParsed(f, ParsePipe(ts))
    decreases |ts|, 1
  {
    ExecMap(f, ts);
    var r := ParseExec(ts);
    if r.Ok? && r.rest != [] && r.rest[0].Bar? {
      MapDrop(f, r.rest, 1);
      PipeMap(f, r.rest[1..]);
    }
  }

  /** The parser never looks inside a word. */
  lemma {:induction false} LineMap<W, V>(f: W -> V, ts: seq<Token<W>>)
    ensures ParseLine(MapTokens(f, ts)) == MapParsed(f, ParseLine(ts))
    decreases |ts|, 3
  {
    PipeMap(f, ts);
    var r := ParsePipe(ts);
    if r.Ok? {
      BacksMap(f, r.cmd, r.rest);
    }
  }

  lemma {:induction false} BacksMap<W, V>(f: W -> V, c: Cmd<W>, ts: seq<Token<W>>)
    ensures ParseBacks(MapCmd(f, c), MapTokens(f, ts)) == MapParsed(f, ParseBacks(c, ts))
    decreases |ts|, 2
  {
    hide MapTokens, ParseLine;
    if ts != [] && ts[0].Amp? {
      MapDrop(f, ts, 1);
      BacksMap(f, Back(c), ts[1..]);
    } else if ts != [] && ts[0].Semi? {
      MapDrop(f, ts, 1);
      LineMap(f, ts[1..]);
    }
  }
}

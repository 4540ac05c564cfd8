/** The command lines that sh.c accepts, as a grammar over tokens, and what they mean. */
module ShellLines {
  import opened Shell
  import opened ShellRoundTrip

  // ---------------------------------------------------------------- tokens

  /** A word, or a symbol; '+' stands for >>. */
  datatype Tok = Word(text: string) | Sym(c: char)

  /** The tokens of a line from position i on. */
  function Lex(s: string, i: nat): seq<Tok>
    requires i <= |s|
    decreases |s| - i
  {
    var t := GetToken(s, i);
    if t.kind == NUL then [] else [TokOf(s, t)] + Lex(s, t.next)
  }

  function TokOf(s: string, t: Token): Tok {
    if t.kind == 'a' then Word(Text(s, t.span)) else Sym(t.kind)
  }

  /** The next token is one of these symbols, by its first character. */
  predicate HeadIn(ts: seq<Tok>, toks: string) {
    ts != [] && ts[0].Sym? && (if ts[0].c == '+' then '>' else ts[0].c) in toks
  }

  predicate Symbols(toks: string) {
    forall k :: 0 <= k < |toks| ==> Symbol(toks[k])
  }

  lemma LexSkip(s: string, i: nat)
    requires i <= |s|
    ensures Skip(s, Skip(s, i)) == Skip(s, i) && Lex(s, Skip(s, i)) == Lex(s, i)
  {
    assert GetToken(s, Skip(s, i)) == GetToken(s, i);
  }

  lemma PeekIs(s: string, i: nat, toks: string)
    requires i <= |s| && NoNul(s) && Symbols(toks)
    ensures Peek(s, i, toks) <==> HeadIn(Lex(s, i), toks)
  {
    var q := Skip(s, i);
    if q < |s| && s[q] in toks { assert Symbol(s[q]); }
  }

  /** The first token and where the others begin. */
  lemma LexFirst(s: string, i: nat)
    requires i <= |s| && NoNul(s)
    ensures Lex(s, i) == [] <==> Skip(s, i) == |s|
    ensures Lex(s, i) == [] <==> GetToken(s, i).kind == NUL
    ensures Lex(s, i) != [] ==> Lex(s, i)[0] == TokOf(s, GetToken(s, i)) && Lex(s, i)[1..] == Lex(s, GetToken(s, i).next)
  {
  }

  // --------------------------------------------------------------- grammar

  /** A redirection: < file, > file or >> file. */
  datatype File = File(arrow: char, name: string)

  /** An argument and the redirections behind it. */
  datatype Arg = Arg(word: string, files: seq<File>)

  datatype Unit = Plain(before: seq<File>, args: seq<Arg>) | Group(line: Line, files: seq<File>)

  datatype Pipeline = Single(u: Unit) | Piped(u: Unit, rest: Pipeline)

  /** Pipelines, each with a number of ampersands behind it, and semicolons between them. */
  datatype Line = Last(p: Pipeline, backs: nat) | Then(p: Pipeline, backs: nat, rest: Line)

  function FileToks(files: seq<File>): seq<Tok> {
    if files == [] then [] else [Sym(files[0].arrow), Word(files[0].name)] + FileToks(files[1..])
  }

  function ArgToks(args: seq<Arg>): seq<Tok> {
    if args == [] then [] else [Word(args[0].word)] + FileToks(args[0].files) + ArgToks(args[1..])
  }

  function UnitToks(u: Unit): seq<Tok>
    decreases u
  {
    match u
    case Plain(before, args) => FileToks(before) + ArgToks(args)
    case Group(line, files) => [Sym('(')] + LineToks(line) + [Sym(')')] + FileToks(files)
  }

  function PipeToks(p: Pipeline): seq<Tok>
    decreases p
  {
    match p
    case Single(u) => UnitToks(u)
    case Piped(u, rest) => UnitToks(u) + [Sym('|')] + PipeToks(rest)
  }

  function Amps(n: nat): seq<Tok> {
    if n == 0 then [] else [Sym('&')] + Amps(n - 1)
  }

  function LineToks(line: Line): seq<Tok>
    decreases line
  {
    match line
    case Last(p, backs) => PipeToks(p) + Amps(backs)
    case Then(p, backs, rest) => PipeToks(p) + Amps(backs) + [Sym(';')] + LineToks(rest)
  }

  predicate FilesOk(files: seq<File>) {
    forall k :: 0 <= k < |files| ==> files[k].arrow in "<>+"
  }

  predicate ArgsOk(args: seq<Arg>) {
    forall k :: 0 <= k < |args| ==> FilesOk(args[k].files)
  }

  /** Redirections have one of the three arrows, and argv has room for the arguments. */
  predicate UnitOk(u: Unit)
    decreases u
  {
    match u
    case Plain(before, args) => FilesOk(before) && ArgsOk(args) && |args| < MAXARGS
    case Group(line, files) => LineOk(line) && FilesOk(files)
  }

  predicate PipeOk(p: Pipeline)
    decreases p
  {
    UnitOk(p.u) && (p.Piped? ==> PipeOk(p.rest))
  }

  predicate LineOk(line: Line)
    decreases line
  {
    PipeOk(line.p) && (line.Then? ==> LineOk(line.rest))
  }

  // --------------------------------------------------------------- meaning

  /** The redirections wrap the command, the last one outermost; >> does what > does. */
  function Wrapped(t: Tree, files: seq<File>): Tree {
    if files == [] then t
    else TRedir(Wrapped(t, files[..|files| - 1]), files[|files| - 1].name, if files[|files| - 1].arrow == '<' then ReadIn else WriteOut)
  }

  function WordsOf(args: seq<Arg>): seq<string> {
    if args == [] then [] else [args[0].word] + WordsOf(args[1..])
  }

  function FilesOf(args: seq<Arg>): seq<File> {
    if args == [] then [] else args[0].files + FilesOf(args[1..])
  }

  function UnitTree(u: Unit): Tree
    decreases u
  {
    match u
    case Plain(before, args) => Wrapped(TExec(WordsOf(args)), before + FilesOf(args))
    case Group(line, files) => Wrapped(LineTree(line), files)
  }

  /** Pipes nest to the right. */
  function PipeTree(p: Pipeline): Tree
    decreases p
  {
    match p
    case Single(u) => UnitTree(u)
    case Piped(u, rest) => TPipe(UnitTree(u), PipeTree(rest))
  }

  function Backed(t: Tree, n: nat): Tree {
    if n == 0 then t else TBack(Backed(t, n - 1))
  }

  /** So do lists; an ampersand is about its own pipeline. */
  function LineTree(line: Line): Tree
    decreases line
  {
    match line
    case Last(p, backs) => Backed(PipeTree(p), backs)
    case Then(p, backs, rest) => TList(Backed(PipeTree(p), backs), LineTree(rest))
  }

  // ------------------------------------------------- lines of the grammar parse

  lemma Eat(s: string, i: nat, t: Tok, rest: seq<Tok>)
    requires i <= |s| && NoNul(s) && Lex(s, i) == [t] + rest
    ensures var k := GetToken(s, i); k.kind != NUL && TokOf(s, k) == t && Lex(s, k.next) == rest && k.next > i
  {
    LexFirst(s, i);
    assert ([t] + rest)[1..] == rest;
  }

  /** The redirections that the parser has found are these files. */
  ghost predicate Match(s: string, list: seq<(Span, Mode)>, files: seq<File>) {
    |list| == |files| && forall k :: 0 <= k < |list| ==> MatchAt(s, list[k], files[k])
  }

  predicate MatchAt(s: string, x: (Span, Mode), f: File) {
    Text(s, x.0) == f.name && x.1 == if f.arrow == '<' then ReadIn else WriteOut
  }

  lemma {:induction false} WrapMatches(s: string, c: Cmd, list: seq<(Span, Mode)>, files: seq<File>)
    requires Match(s, list, files)
    ensures Resolve(s, Wrap(c, list)) == Wrapped(Resolve(s, c), files)
    decreases |list|
  {
    if list != [] {
      var n := |list| - 1;
      forall k | 0 <= k < n ensures MatchAt(s, list[..n][k], files[..n][k]) { assert MatchAt(s, list[k], files[k]); }
      WrapMatches(s, c, list[..n], files[..n]);
      assert MatchAt(s, list[n], files[n]);
    }
  }

  lemma MatchMore(s: string, a: seq<(Span, Mode)>, b: seq<(Span, Mode)>, f: seq<File>, g: seq<File>)
    requires Match(s, a, f) && Match(s, b, g)
    ensures Match(s, a + b, f + g)
  {
    forall k | 0 <= k < |a + b| ensures MatchAt(s, (a + b)[k], (f + g)[k]) {
      if k < |a| { assert MatchAt(s, a[k], f[k]); } else { assert MatchAt(s, b[k - |a|], g[k - |a|]); }
    }
  }

  lemma {:induction false} RedirsParse(s: string, i: nat, files: seq<File>, rest: seq<Tok>)
    requires i <= |s| && NoNul(s) && FilesOk(files) && Lex(s, i) == FileToks(files) + rest && !HeadIn(rest, "<>")
    ensures var r := ParseRedirs(s, i); r.Redirs? && Lex(s, r.at) == rest && Match(s, r.list, files)
    decreases |files|
  {
    PeekIs(s, i, "<>");
    if files == [] {
      assert FileToks(files) + rest == rest;
      LexSkip(s, i);
    } else {
      var f, more := files[0], FileToks(files[1..]) + rest;
      Regroup2([Sym(f.arrow), Word(f.name)], FileToks(files[1..]), rest);
      assert f.arrow in "<>+";
      var x, k := RedirParse(s, i, f, more);
      RedirsParse(s, k, files[1..], rest);
      MatchOne(s, x, f, ParseRedirs(s, k).list, files[1..]);
      assert [f] + files[1..] == files;
    }
  }

  lemma RedirParse(s: string, i: nat, f: File, more: seq<Tok>) returns (x: (Span, Mode), k: nat)
    requires i <= |s| && NoNul(s) && f.arrow in "<>+" && Lex(s, i) == [Sym(f.arrow), Word(f.name)] + more
    ensures k <= |s| && Lex(s, k) == more && MatchAt(s, x, f)
    ensures ParseRedirs(s, k).Redirs? ==> ParseRedirs(s, i) == Redirs([x] + ParseRedirs(s, k).list, ParseRedirs(s, k).at)
  {
    PeekIs(s, i, "<>");
    assert [Sym(f.arrow), Word(f.name)] + more == [Sym(f.arrow)] + ([Word(f.name)] + more);
    Eat(s, i, Sym(f.arrow), [Word(f.name)] + more);
    var t := GetToken(s, i);
    Eat(s, t.next, Word(f.name), more);
    var w := GetToken(s, t.next);
    x, k := (w.span, if t.kind == '<' then ReadIn else WriteOut), w.next;
  }

  lemma MatchOne(s: string, x: (Span, Mode), f: File, list: seq<(Span, Mode)>, files: seq<File>)
    requires MatchAt(s, x, f) && Match(s, list, files)
    ensures Match(s, [x] + list, [f] + files)
  {
    MatchMore(s, [x], list, [f], files);
  }

  // ------------------------------------------------------------- arguments

  /** What may follow a simple command. */
  predicate Ended(rest: seq<Tok>) {
    rest == [] || HeadIn(rest, "|)&;")
  }

  ghost predicate Texts(s: string, spans: seq<Span>, words: seq<string>) {
    |spans| == |words| && forall k :: 0 <= k < |spans| ==> Text(s, spans[k]) == words[k]
  }

  lemma ExecTexts(s: string, spans: seq<Span>, words: seq<string>)
    requires Texts(s, spans, words)
    ensures Resolve(s, Exec(spans)) == TExec(words)
  {
    assert Resolve(s, Exec(spans)).argv == words;
  }

  /** The arguments `args` are left, after those in spans. */
  lemma {:induction false} ArgsParse(s: string, spans: seq<Span>, list: seq<(Span, Mode)>, i: nat,
                                     words: seq<string>, files: seq<File>, args: seq<Arg>, rest: seq<Tok>)
    requires i <= |s| && NoNul(s) && Texts(s, spans, words) && Match(s, list, files) && ArgsOk(args) && |spans| + |args| < MAXARGS
    requires Lex(s, i) == ArgToks(args) + rest && Ended(rest)
    ensures var r := ParseArgs(s, spans, list, i);
      r.Good? && Lex(s, r.at) == rest && Resolve(s, r.cmd) == Wrapped(TExec(words + WordsOf(args)), files + FilesOf(args))
    decreases |args|, 1
  {
    PeekIs(s, i, "|)&;");
    if args == [] {
      assert ArgToks(args) + rest == rest && words + [] == words && files + [] == files;
      LexFirst(s, i);
      LexSkip(s, i);
      ExecTexts(s, spans, words);
      WrapMatches(s, Exec(spans), list, files);
    } else {
      ArgParse(s, spans, list, i, words, files, args, rest);
    }
  }

  lemma {:induction false} ArgParse(s: string, spans: seq<Span>, list: seq<(Span, Mode)>, i: nat,
                                    words: seq<string>, files: seq<File>, args: seq<Arg>, rest: seq<Tok>)
    requires i <= |s| && NoNul(s) && Texts(s, spans, words) && Match(s, list, files) && ArgsOk(args) && |spans| + |args| < MAXARGS
    requires Lex(s, i) == ArgToks(args) + rest && Ended(rest) && args != []
    ensures var r := ParseArgs(s, spans, list, i);
      r.Good? && Lex(s, r.at) == rest && Resolve(s, r.cmd) == Wrapped(TExec(words + WordsOf(args)), files + FilesOf(args))
    decreases |args|, 0
  {
    var a, others := args[0], args[1..];
    var more := ArgToks(others) + rest;
    FirstArg(args, words, files, rest);
    NoArrow(others, rest);
    var span, list', at := OneArg(s, spans, list, i, a, more);
    MatchMore(s, list, list', files, a.files);
    OneText(s, spans, words, span, a.word);
    ArgsParse(s, spans + [span], list + list', at, words + [a.word], files + a.files, others, rest);
  }

  lemma FirstArg(args: seq<Arg>, words: seq<string>, files: seq<File>, rest: seq<Tok>)
    requires args != []
    ensures ArgToks(args) + rest == [Word(args[0].word)] + (FileToks(args[0].files) + (ArgToks(args[1..]) + rest))
    ensures words + [args[0].word] + WordsOf(args[1..]) == words + WordsOf(args)
    ensures files + args[0].files + FilesOf(args[1..]) == files + FilesOf(args)
  {
    Regroup3([Word(args[0].word)], FileToks(args[0].files), ArgToks(args[1..]), rest);
    JoinWords(words, [args[0].word], WordsOf(args[1..]));
    JoinFiles(files, args[0].files, FilesOf(args[1..]));
  }

  lemma JoinWords(a: seq<string>, b: seq<string>, c: seq<string>)
    ensures a + b + c == a + (b + c)
  {
  }

  lemma JoinFiles(a: seq<File>, b: seq<File>, c: seq<File>)
    ensures a + b + c == a + (b + c)
  {
  }

  lemma OneText(s: string, spans: seq<Span>, words: seq<string>, span: Span, word: string)
    requires Texts(s, spans, words) && Text(s, span) == word
    ensures Texts(s, spans + [span], words + [word])
  {
  }

  /** One argument and the redirections behind it. */
  lemma OneArg(s: string, spans: seq<Span>, list: seq<(Span, Mode)>, i: nat, a: Arg, more: seq<Tok>)
    returns (span: Span, list': seq<(Span, Mode)>, at: nat)
    requires i <= |s| && NoNul(s) && FilesOk(a.files) && |spans| + 1 < MAXARGS
    requires Lex(s, i) == [Word(a.word)] + (FileToks(a.files) + more) && !HeadIn(more, "<>")
    ensures at <= |s| && Lex(s, at) == more && Text(s, span) == a.word && Match(s, list', a.files)
    ensures ParseArgs(s, spans, list, i) == ParseArgs(s, spans + [span], list + list', at)
  {
    Eat(s, i, Word(a.word), FileToks(a.files) + more);
    PeekIs(s, i, "|)&;");
    var t := GetToken(s, i);
    RedirsParse(s, t.next, a.files, more);
    var r := ParseRedirs(s, t.next);
    span, list', at := t.span, r.list, r.at;
  }

  lemma NoArrow(args: seq<Arg>, rest: seq<Tok>)
    requires Ended(rest)
    ensures !HeadIn(ArgToks(args) + rest, "<>")
  {
    if args == [] { assert ArgToks(args) + rest == rest; }
  }

  // ------------------------------------------- commands, pipelines and lines

  /** Parsing has gone as far as `rest`, with tree t. */
  ghost predicate Takes(s: string, p: Parsed, t: Tree, rest: seq<Tok>) {
    p.Good? && p.at <= |s| && Lex(s, p.at) == rest && Resolve(s, p.cmd) == t
  }

  lemma {:induction false} PlainParse(s: string, i: nat, before: seq<File>, args: seq<Arg>, rest: seq<Tok>)
    requires i <= |s| && NoNul(s) && UnitOk(Plain(before, args)) && Lex(s, i) == FileToks(before) + ArgToks(args) + rest && Ended(rest)
    ensures Takes(s, ParseExec(s, i), UnitTree(Plain(before, args)), rest)
  {
    var more := ArgToks(args) + rest;
    assert FileToks(before) + ArgToks(args) + rest == FileToks(before) + more;
    PeekIs(s, i, "(");
    NoOpen(before, args, rest);
    NoArrow(args, rest);
    RedirsParse(s, i, before, more);
    var r := ParseRedirs(s, i);
    ArgsParse(s, [], r.list, r.at, [], before, args, rest);
    assert [] + WordsOf(args) == WordsOf(args);
  }

  lemma NoOpen(before: seq<File>, args: seq<Arg>, rest: seq<Tok>)
    requires FilesOk(before) && Ended(rest)
    ensures !HeadIn(FileToks(before) + (ArgToks(args) + rest), "(")
  {
    if before == [] {
      assert FileToks(before) + (ArgToks(args) + rest) == ArgToks(args) + rest;
      if args == [] { assert ArgToks(args) + rest == rest; }
    } else {
      assert before[0].arrow in "<>+";
    }
  }

  lemma {:induction false} UnitParse(s: string, i: nat, u: Unit, rest: seq<Tok>)
    requires i <= |s| && NoNul(s) && UnitOk(u) && Lex(s, i) == UnitToks(u) + rest && Ended(rest)
    ensures Takes(s, ParseExec(s, i), UnitTree(u), rest)
    decreases u
  {
    match u
    case Plain(before, args) => PlainParse(s, i, before, args, rest);
    case Group(line, files) =>
      var close := [Sym(')')] + (FileToks(files) + rest);
      Regroup4([Sym('(')], LineToks(line), [Sym(')')], FileToks(files), rest);
      Eat(s, i, Sym('('), LineToks(line) + close);
      LineParse(s, GetToken(s, i).next, line, close);
      GroupParse(s, i, line, files, rest);
  }

  lemma GroupParse(s: string, i: nat, line: Line, files: seq<File>, rest: seq<Tok>)
    requires i <= |s| && NoNul(s) && FilesOk(files) && HeadIn(Lex(s, i), "(") && Ended(rest)
    requires Takes(s, ParseLine(s, GetToken(s, i).next), LineTree(line), [Sym(')')] + (FileToks(files) + rest))
    ensures Takes(s, ParseExec(s, i), UnitTree(Group(line, files)), rest)
  {
    PeekIs(s, i, "(");
    var p := ParseLine(s, GetToken(s, i).next);
    PeekIs(s, p.at, ")");
    Eat(s, p.at, Sym(')'), FileToks(files) + rest);
    var k := GetToken(s, p.at).next;
    RedirsParse(s, k, files, rest);
    WrapMatches(s, p.cmd, ParseRedirs(s, k).list, files);
  }

  lemma {:induction false} PipeParse(s: string, i: nat, p: Pipeline, rest: seq<Tok>)
    requires i <= |s| && NoNul(s) && PipeOk(p) && Lex(s, i) == PipeToks(p) + rest && (rest == [] || HeadIn(rest, ")&;"))
    ensures Takes(s, ParsePipe(s, i), PipeTree(p), rest)
    decreases p
  {
    match p
    case Single(u) =>
      UnitParse(s, i, u, rest);
      PipeLast(s, i, UnitTree(u), rest);
    case Piped(u, more) =>
      var bar := [Sym('|')] + (PipeToks(more) + rest);
      Regroup3(UnitToks(u), [Sym('|')], PipeToks(more), rest);
      UnitParse(s, i, u, bar);
      Eat(s, ParseExec(s, i).at, Sym('|'), PipeToks(more) + rest);
      PipeParse(s, GetToken(s, ParseExec(s, i).at).next, more, rest);
      PipeMore(s, i, UnitTree(u), PipeTree(more), PipeToks(more) + rest, rest);
  }

  lemma Regroup3(a: seq<Tok>, b: seq<Tok>, c: seq<Tok>, d: seq<Tok>)
    ensures a + b + c + d == a + (b + (c + d))
  {
  }

  lemma Regroup4(a: seq<Tok>, b: seq<Tok>, c: seq<Tok>, d: seq<Tok>, e: seq<Tok>)
    ensures a + b + c + d + e == a + (b + (c + (d + e)))
  {
    Regroup3(a + b, c, d, e);
    assert (a + b) + (c + (d + e)) == a + (b + (c + (d + e)));
  }

  lemma PipeLast(s: string, i: nat, t: Tree, rest: seq<Tok>)
    requires i <= |s| && NoNul(s) && Takes(s, ParseExec(s, i), t, rest) && !HeadIn(rest, "|")
    ensures Takes(s, ParsePipe(s, i), t, rest)
  {
    var r := ParseExec(s, i);
    PeekIs(s, r.at, "|");
    LexSkip(s, r.at);
  }

  lemma PipeMore(s: string, i: nat, t: Tree, t': Tree, more: seq<Tok>, rest: seq<Tok>)
    requires i <= |s| && NoNul(s) && Takes(s, ParseExec(s, i), t, [Sym('|')] + more)
    requires Takes(s, ParsePipe(s, GetToken(s, ParseExec(s, i).at).next), t', rest)
    ensures Takes(s, ParsePipe(s, i), TPipe(t, t'), rest)
  {
    PeekIs(s, ParseExec(s, i).at, "|");
  }

  lemma {:induction false} BackedIn(t: Tree, n: nat)
    ensures Backed(TBack(t), n) == TBack(Backed(t, n))
  {
    if n > 0 { BackedIn(t, n - 1); }
  }

  lemma {:induction false} BacksParse(s: string, c: Cmd, i: nat, n: nat, rest: seq<Tok>)
    requires i <= |s| && NoNul(s) && Lex(s, i) == Amps(n) + rest && !HeadIn(rest, "&")
    ensures Takes(s, ParseBacks(s, c, i), Backed(Resolve(s, c), n), rest)
    decreases n
  {
    PeekIs(s, i, "&");
    if n == 0 {
      assert Amps(n) + rest == rest;
      LexSkip(s, i);
    } else {
      assert Amps(n) + rest == [Sym('&')] + (Amps(n - 1) + rest);
      Eat(s, i, Sym('&'), Amps(n - 1) + rest);
      BacksParse(s, Back(c), GetToken(s, i).next, n - 1, rest);
      BackedIn(Resolve(s, c), n - 1);
    }
  }

  lemma AmpsEnd(n: nat, rest: seq<Tok>)
    requires rest == [] || HeadIn(rest, ");")
    ensures Amps(n) + rest == [] || HeadIn(Amps(n) + rest, ")&;")
  {
    if n == 0 { assert Amps(n) + rest == rest; }
  }

  lemma {:induction false} LineParse(s: string, i: nat, line: Line, rest: seq<Tok>)
    requires i <= |s| && NoNul(s) && LineOk(line) && Lex(s, i) == LineToks(line) + rest && (rest == [] || HeadIn(rest, ")"))
    ensures Takes(s, ParseLine(s, i), LineTree(line), rest)
    decreases line
  {
    var tail := if line.Last? then rest else [Sym(';')] + (LineToks(line.rest) + rest);
    LineSplit(line, rest);
    AmpsEnd(line.backs, tail);
    PipeParse(s, i, line.p, Amps(line.backs) + tail);
    var r := ParsePipe(s, i);
    BacksParse(s, r.cmd, r.at, line.backs, tail);
    var b := ParseBacks(s, r.cmd, r.at);
    if line.Then? {
      Eat(s, b.at, Sym(';'), LineToks(line.rest) + rest);
      LineParse(s, GetToken(s, b.at).next, line.rest, rest);
      LineMore(s, i, Backed(PipeTree(line.p), line.backs), LineTree(line.rest), LineToks(line.rest) + rest, rest);
    } else {
      LineLast(s, i, Backed(PipeTree(line.p), line.backs), rest);
    }
  }

  lemma LineSplit(line: Line, rest: seq<Tok>)
    ensures LineToks(line) + rest ==
            PipeToks(line.p) + (Amps(line.backs) + if line.Last? then rest else [Sym(';')] + (LineToks(line.rest) + rest))
  {
    match line
    case Last(p, backs) =>
      assert PipeToks(p) + Amps(backs) + rest == PipeToks(p) + (Amps(backs) + rest);
    case Then(p, backs, more) =>
      Regroup4(PipeToks(p), Amps(backs), [Sym(';')], LineToks(more), rest);
  }

  lemma LineLast(s: string, i: nat, t: Tree, rest: seq<Tok>)
    requires i <= |s| && NoNul(s) && ParsePipe(s, i).Good? && !HeadIn(rest, ";")
    requires Takes(s, ParseBacks(s, ParsePipe(s, i).cmd, ParsePipe(s, i).at), t, rest)
    ensures Takes(s, ParseLine(s, i), t, rest)
  {
    PeekIs(s, ParseBacks(s, ParsePipe(s, i).cmd, ParsePipe(s, i).at).at, ";");
  }

  lemma LineMore(s: string, i: nat, t: Tree, t': Tree, more: seq<Tok>, rest: seq<Tok>)
    requires i <= |s| && NoNul(s) && ParsePipe(s, i).Good?
    requires Takes(s, ParseBacks(s, ParsePipe(s, i).cmd, ParsePipe(s, i).at), t, [Sym(';')] + more)
    requires Takes(s, ParseLine(s, GetToken(s, ParseBacks(s, ParsePipe(s, i).cmd, ParsePipe(s, i).at).at).next), t', rest)
    ensures Takes(s, ParseLine(s, i), TList(t, t'), rest)
  {
    PeekIs(s, ParseBacks(s, ParsePipe(s, i).cmd, ParsePipe(s, i).at).at, ";");
  }

  /** Every line of the grammar is parsed, to the tree that it means. */
  lemma LineParses(s: string, line: Line)
    requires NoNul(s) && LineOk(line) && Lex(s, 0) == LineToks(line)
    ensures ParseCmd(s).Good? && Resolve(s, ParseCmd(s).cmd) == LineTree(line)
  {
    assert LineToks(line) + [] == LineToks(line);
    LineParse(s, 0, line, []);
    LexFirst(s, ParseLine(s, 0).at);
  }

  // --------------------------------------------- and nothing else is accepted

  lemma {:induction false} RedirsBack(s: string, i: nat) returns (files: seq<File>)
    requires i <= |s| && NoNul(s) && ParseRedirs(s, i).Redirs?
    ensures FilesOk(files) && Match(s, ParseRedirs(s, i).list, files) && Lex(s, i) == FileToks(files) + Lex(s, ParseRedirs(s, i).at)
    decreases |s| - i
  {
    if !Peek(s, i, "<>") {
      files := [];
      LexSkip(s, i);
    } else {
      var t := GetToken(s, i);
      var w := GetToken(s, t.next);
      RedirStep(s, i);
      var f := File(t.kind, Text(s, w.span));
      var more := RedirsBack(s, w.next);
      files := [f] + more;
      MatchOne(s, (w.span, if t.kind == '<' then ReadIn else WriteOut), f, ParseRedirs(s, w.next).list, more);
      assert files[1..] == more;
      Regroup2([Sym(t.kind), Word(f.name)], FileToks(more), Lex(s, ParseRedirs(s, i).at));
    }
  }

  lemma RedirStep(s: string, i: nat)
    requires i <= |s| && NoNul(s) && ParseRedirs(s, i).Redirs? && Peek(s, i, "<>")
    ensures var t := GetToken(s, i);
      var w := GetToken(s, t.next);
      && i < w.next <= |s| && ParseRedirs(s, w.next).Redirs? && t.kind in "<>+"
      && ParseRedirs(s, i) == Redirs([(w.span, if t.kind == '<' then ReadIn else WriteOut)] + ParseRedirs(s, w.next).list, ParseRedirs(s, w.next).at)
      && Lex(s, i) == [Sym(t.kind), Word(Text(s, w.span))] + Lex(s, w.next)
  {
    PeekIs(s, i, "<>");
    var t := GetToken(s, i);
    LexFirst(s, i);
    LexFirst(s, t.next);
    assert [Sym(t.kind)] + ([Word(Text(s, GetToken(s, t.next).span))] + Lex(s, GetToken(s, t.next).next))
        == [Sym(t.kind), Word(Text(s, GetToken(s, t.next).span))] + Lex(s, GetToken(s, t.next).next);
  }

  lemma {:induction false} ArgsBack(s: string, spans: seq<Span>, list: seq<(Span, Mode)>, i: nat, words: seq<string>, files: seq<File>)
    returns (args: seq<Arg>)
    requires i <= |s| && NoNul(s) && Texts(s, spans, words) && Match(s, list, files) && |spans| < MAXARGS
    requires ParseArgs(s, spans, list, i).Good?
    ensures ArgsOk(args) && |spans| + |args| < MAXARGS && Lex(s, i) == ArgToks(args) + Lex(s, ParseArgs(s, spans, list, i).at)
    ensures Resolve(s, ParseArgs(s, spans, list, i).cmd) == Wrapped(TExec(words + WordsOf(args)), files + FilesOf(args))
    decreases |s| - i
  {
    var t := GetToken(s, i);
    LexFirst(s, i);
    if Peek(s, i, "|)&;") || t.kind == NUL {
      args := [];
      assert words + [] == words && files + [] == files;
      LexSkip(s, i);
      if t.kind == NUL { LexFirst(s, t.next); }
      ExecTexts(s, spans, words);
      WrapMatches(s, Exec(spans), list, files);
    } else {
      var r := ParseRedirs(s, t.next);
      var fs := RedirsBack(s, t.next);
      MatchMore(s, list, r.list, files, fs);
      OneText(s, spans, words, t.span, Text(s, t.span));
      var others := ArgsBack(s, spans + [t.span], list + r.list, r.at, words + [Text(s, t.span)], files + fs);
      args := [Arg(Text(s, t.span), fs)] + others;
      FirstArg(args, words, files, Lex(s, ParseArgs(s, spans, list, i).at));
      assert args[1..] == others;
      Regroup2([Word(Text(s, t.span))], FileToks(fs), Lex(s, r.at));
    }
  }

  lemma Regroup2(a: seq<Tok>, b: seq<Tok>, c: seq<Tok>)
    ensures a + b + c == a + (b + c)
  {
  }

  /** Some command of the grammar is at i, up to where the parser has come, and means what
      the parser has made of it. */
  ghost predicate IsUnit(s: string, i: nat, p: Parsed, u: Unit) {
    i <= |s| && p.Good? && p.at <= |s| && UnitOk(u) && Lex(s, i) == UnitToks(u) + Lex(s, p.at) && Resolve(s, p.cmd) == UnitTree(u)
  }

  ghost predicate IsPipe(s: string, i: nat, p: Parsed, x: Pipeline) {
    i <= |s| && p.Good? && p.at <= |s| && PipeOk(x) && Lex(s, i) == PipeToks(x) + Lex(s, p.at) && Resolve(s, p.cmd) == PipeTree(x)
  }

  ghost predicate IsLine(s: string, i: nat, p: Parsed, line: Line) {
    i <= |s| && p.Good? && p.at <= |s| && LineOk(line) && Lex(s, i) == LineToks(line) + Lex(s, p.at) && Resolve(s, p.cmd) == LineTree(line)
  }

  lemma {:induction false} UnitBack(s: string, i: nat) returns (u: Unit)
    requires i <= |s| && NoNul(s) && ParseExec(s, i).Good?
    ensures IsUnit(s, i, ParseExec(s, i), u)
    decreases |s| - i, 0
  {
    if Peek(s, i, "(") {
      var t := GetToken(s, i);
      var line := LineBack(s, t.next);
      u := GroupBack(s, i, line);
    } else {
      u := PlainBack(s, i);
    }
  }

  lemma PlainBack(s: string, i: nat) returns (u: Unit)
    requires i <= |s| && NoNul(s) && ParseExec(s, i).Good? && !Peek(s, i, "(")
    ensures IsUnit(s, i, ParseExec(s, i), u)
  {
    var before := RedirsBack(s, i);
    var r := ParseRedirs(s, i);
    var args := ArgsBack(s, [], r.list, r.at, [], before);
    u := Plain(before, args);
    assert [] + WordsOf(args) == WordsOf(args);
    Regroup2(FileToks(before), ArgToks(args), Lex(s, ParseExec(s, i).at));
  }

  lemma GroupBack(s: string, i: nat, line: Line) returns (u: Unit)
    requires i <= |s| && NoNul(s) && ParseExec(s, i).Good? && Peek(s, i, "(")
    requires IsLine(s, GetToken(s, i).next, ParseLine(s, GetToken(s, i).next), line)
    ensures IsUnit(s, i, ParseExec(s, i), u)
  {
    PeekIs(s, i, "(");
    LexFirst(s, i);
    var p := ParseLine(s, GetToken(s, i).next);
    PeekIs(s, p.at, ")");
    LexFirst(s, p.at);
    var k := GetToken(s, p.at).next;
    var files := RedirsBack(s, k);
    u := Group(line, files);
    var r := ParseRedirs(s, k);
    WrapMatches(s, p.cmd, r.list, files);
    Regroup4([Sym('(')], LineToks(line), [Sym(')')], FileToks(files), Lex(s, r.at));
  }

  lemma {:induction false} PipeBack(s: string, i: nat) returns (x: Pipeline)
    requires i <= |s| && NoNul(s) && ParsePipe(s, i).Good?
    ensures IsPipe(s, i, ParsePipe(s, i), x)
    decreases |s| - i, 1
  {
    var u := UnitBack(s, i);
    var r := ParseExec(s, i);
    if !Peek(s, r.at, "|") {
      x := Single(u);
      LexSkip(s, r.at);
    } else {
      PeekIs(s, r.at, "|");
      LexFirst(s, r.at);
      var k := GetToken(s, r.at).next;
      var more := PipeBack(s, k);
      x := Piped(u, more);
      MorePipe(s, i, r, k, ParsePipe(s, k), u, more);
    }
  }

  lemma MorePipe(s: string, i: nat, r: Parsed, k: nat, q: Parsed, u: Unit, more: Pipeline)
    requires IsUnit(s, i, r, u) && k <= |s| && Lex(s, r.at) == [Sym('|')] + Lex(s, k) && IsPipe(s, k, q, more)
    ensures IsPipe(s, i, Good(Pipe(r.cmd, q.cmd), q.at), Piped(u, more))
  {
    Regroup3(UnitToks(u), [Sym('|')], PipeToks(more), Lex(s, q.at));
  }

  /** n ampersands are at i. */
  ghost predicate IsBacks(s: string, i: nat, p: Parsed, c: Cmd, n: nat) {
    i <= |s| && p.Good? && p.at <= |s| && Lex(s, i) == Amps(n) + Lex(s, p.at) && Resolve(s, p.cmd) == Backed(Resolve(s, c), n)
  }

  lemma {:induction false} BacksBack(s: string, c: Cmd, i: nat) returns (n: nat)
    requires i <= |s| && NoNul(s)
    ensures IsBacks(s, i, ParseBacks(s, c, i), c, n)
    decreases |s| - i
  {
    if !Peek(s, i, "&") {
      n := 0;
      NoBack(s, c, i);
    } else {
      BackStep(s, c, i);
      var m := BacksBack(s, Back(c), GetToken(s, i).next);
      n := m + 1;
      OneBack(s, c, i, GetToken(s, i).next, ParseBacks(s, c, i), m);
    }
  }

  lemma NoBack(s: string, c: Cmd, i: nat)
    requires i <= |s| && NoNul(s) && !Peek(s, i, "&")
    ensures IsBacks(s, i, ParseBacks(s, c, i), c, 0)
  {
    LexSkip(s, i);
    assert Amps(0) + Lex(s, i) == Lex(s, i);
  }

  lemma OneBack(s: string, c: Cmd, i: nat, k: nat, p: Parsed, m: nat)
    requires i <= |s| && IsBacks(s, k, p, Back(c), m) && Lex(s, i) == [Sym('&')] + Lex(s, k)
    ensures IsBacks(s, i, p, c, m + 1)
  {
    BackedIn(Resolve(s, c), m);
    Regroup2([Sym('&')], Amps(m), Lex(s, p.at));
  }

  lemma BackStep(s: string, c: Cmd, i: nat)
    requires i <= |s| && NoNul(s) && Peek(s, i, "&")
    ensures var k := GetToken(s, i).next;
      i < k <= |s| && Lex(s, i) == [Sym('&')] + Lex(s, k) && ParseBacks(s, c, i) == ParseBacks(s, Back(c), k)
  {
    PeekIs(s, i, "&");
    LexFirst(s, i);
  }

  lemma {:induction false} LineBack(s: string, i: nat) returns (line: Line)
    requires i <= |s| && NoNul(s) && ParseLine(s, i).Good?
    ensures IsLine(s, i, ParseLine(s, i), line)
    decreases |s| - i, 2
  {
    var x := PipeBack(s, i);
    var p := ParsePipe(s, i);
    var n := BacksBack(s, p.cmd, p.at);
    var b := ParseBacks(s, p.cmd, p.at);
    if !Peek(s, b.at, ";") {
      line := Last(x, n);
      OneLine(s, i, p, b, x, n);
    } else {
      PeekIs(s, b.at, ";");
      LexFirst(s, b.at);
      var k := GetToken(s, b.at).next;
      var more := LineBack(s, k);
      line := Then(x, n, more);
      MoreLines(s, i, p, b, k, ParseLine(s, k), x, n, more);
    }
  }

  lemma OneLine(s: string, i: nat, p: Parsed, b: Parsed, x: Pipeline, n: nat)
    requires IsPipe(s, i, p, x) && IsBacks(s, p.at, b, p.cmd, n)
    ensures IsLine(s, i, b, Last(x, n))
  {
    Regroup2(PipeToks(x), Amps(n), Lex(s, b.at));
  }

  lemma MoreLines(s: string, i: nat, p: Parsed, b: Parsed, k: nat, q: Parsed, x: Pipeline, n: nat, more: Line)
    requires IsPipe(s, i, p, x) && IsBacks(s, p.at, b, p.cmd, n) && k <= |s| && Lex(s, b.at) == [Sym(';')] + Lex(s, k)
    requires IsLine(s, k, q, more)
    ensures IsLine(s, i, Good(List(b.cmd, q.cmd), q.at), Then(x, n, more))
  {
    LineSplit(Then(x, n, more), Lex(s, q.at));
  }

  /** parsecmd accepts a line if and only if it is one of the grammar. */
  lemma AcceptsExactly(s: string)
    requires NoNul(s)
    ensures ParseCmd(s).Good? <==> exists line :: LineOk(line) && Lex(s, 0) == LineToks(line)
  {
    if ParseCmd(s).Good? {
      var line := LineBack(s, 0);
      var p := ParseLine(s, 0);
      LexFirst(s, p.at);
      assert LineToks(line) + [] == LineToks(line);
    }
    if exists line :: LineOk(line) && Lex(s, 0) == LineToks(line) {
      var line :| LineOk(line) && Lex(s, 0) == LineToks(line);
      LineParses(s, line);
    }
  }

  // ------------------------------------------------------ lines as text

  function Spell(t: Tok): string {
    match t
    case Word(text) => text
    case Sym(c) => if c == '+' then ">>" else [c]
  }

  predicate TokOk(t: Tok) {
    match t
    case Word(text) => LegalWord(text)
    case Sym(c) => Symbol(c) || c == '+'
  }

  predicate Blank(g: string) {
    forall k :: 0 <= k < |g| ==> White(g[k])
  }

  /** Two tokens that run together without a blank between them. */
  predicate Clash(a: Tok, b: Tok) {
    (a.Word? && b.Word?) || (a == Sym('>') && b.Sym? && (b.c == '>' || b.c == '+'))
  }

  /** The tokens with blanks before, between and behind them. */
  function Show(ts: seq<Tok>, gaps: seq<string>): string
    requires |gaps| == |ts| + 1
  {
    if ts == [] then gaps[0] else gaps[0] + Spell(ts[0]) + Show(ts[1..], gaps[1..])
  }

  predicate Spaced(ts: seq<Tok>, gaps: seq<string>) {
    && |gaps| == |ts| + 1 && (forall k :: 0 <= k < |gaps| ==> Blank(gaps[k])) && (forall k :: 0 <= k < |ts| ==> TokOk(ts[k]))
    && forall k :: 0 < k < |ts| && Clash(ts[k - 1], ts[k]) ==> gaps[k] != ""
  }

  lemma SpacedRest(ts: seq<Tok>, gaps: seq<string>)
    requires Spaced(ts, gaps) && ts != []
    ensures Spaced(ts[1..], gaps[1..]) && TokOk(ts[0]) && Blank(gaps[0]) && Blank(gaps[1])
    ensures |ts| > 1 && Clash(ts[0], ts[1]) ==> gaps[1] != ""
  {
    forall k | 0 < k < |ts[1..]| && Clash(ts[1..][k - 1], ts[1..][k]) ensures gaps[1..][k] != "" {
      assert Clash(ts[k], ts[k + 1]);
    }
  }

  lemma {:induction false} SkipGap(s: string, i: nat, j: nat)
    requires i <= j <= |s| && (forall k :: i <= k < j ==> White(s[k])) && (j < |s| ==> !White(s[j]))
    ensures Skip(s, i) == j
    decreases j - i
  {
    if i < j { SkipGap(s, i + 1, j); }
  }

  lemma HereAt(s: string, i: nat, t: string, k: nat)
    requires Here(s, i, t) && k < |t|
    ensures s[i + k] == t[k]
  {
    assert s[i..i + |t|][k] == t[k];
  }

  /** What stands behind a token does not run together with it. */
  lemma Behind(s: string, e: nat, t: Tok, ts: seq<Tok>, gaps: seq<string>)
    requires Spaced(ts, gaps) && Here(s, e, Show(ts, gaps)) && e + |Show(ts, gaps)| == |s| && (ts != [] && Clash(t, ts[0]) ==> gaps[0] != "")
    ensures e < |s| && t.Word? ==> !WordChar(s[e])
    ensures e < |s| && t == Sym('>') ==> s[e] != '>'
  {
    if e < |s| {
      HereAt(s, e, Show(ts, gaps), 0);
      if gaps[0] != "" {
        assert Show(ts, gaps)[0] == gaps[0][0] && White(gaps[0][0]);
      } else {
        assert Show(ts, gaps)[0] == Spell(ts[0])[0] && TokOk(ts[0]);
      }
    }
  }

  /** One token at q is read, and the next one looked for behind it. */
  lemma ReadTok(s: string, q: nat, t: Tok, e: nat)
    requires Here(s, q, Spell(t)) && TokOk(t) && e == q + |Spell(t)| && (e < |s| && t.Word? ==> !WordChar(s[e]))
    requires e < |s| && t == Sym('>') ==> s[e] != '>'
    ensures q < e <= |s| && !White(s[q]) && Lex(s, q) == [t] + Lex(s, e)
  {
    TokenHere(s, q, t, e);
    LexSkip(s, e);
  }

  lemma TokenHere(s: string, q: nat, t: Tok, e: nat)
    requires Here(s, q, Spell(t)) && TokOk(t) && e == q + |Spell(t)| && (e < |s| && t.Word? ==> !WordChar(s[e]))
    requires e < |s| && t == Sym('>') ==> s[e] != '>'
    ensures q < e <= |s| && !White(s[q])
    ensures var k := GetToken(s, q); k.kind != NUL && TokOf(s, k) == t && k.next == Skip(s, e)
  {
    HereAt(s, q, Spell(t), 0);
    match t
    case Word(text) => WordHere(s, q, text);
    case Sym(c) => SymHere(s, q, c, e);
  }

  lemma SymHere(s: string, q: nat, c: char, e: nat)
    requires Here(s, q, Spell(Sym(c))) && (Symbol(c) || c == '+') && e == q + |Spell(Sym(c))| && (e < |s| && c == '>' ==> s[e] != '>')
    ensures GetToken(s, q) == Token(c, Span(q, e), Skip(s, e))
  {
    HereAt(s, q, Spell(Sym(c)), 0);
    if c == '+' { HereAt(s, q, Spell(Sym(c)), 1); }
    assert Skip(s, q) == q;
  }

  /** Blanks are passed over. */
  lemma LexGap(s: string, i: nat, g: string, q: nat)
    requires Here(s, i, g) && Blank(g) && q == i + |g| && (q < |s| ==> !White(s[q]))
    ensures Lex(s, i) == Lex(s, q)
  {
    forall k | i <= k < q ensures White(s[k]) { HereAt(s, i, g, k - i); }
    SkipGap(s, i, q);
    LexSkip(s, i);
  }

  lemma LexBlank(s: string, i: nat, g: string)
    requires Here(s, i, g) && Blank(g) && i + |g| == |s|
    ensures Lex(s, i) == []
  {
    LexGap(s, i, g, |s|);
  }

  /** However they are spaced, the tokens are read back. */
  lemma {:induction false} LexShow(s: string, i: nat, ts: seq<Tok>, gaps: seq<string>)
    requires Spaced(ts, gaps) && Here(s, i, Show(ts, gaps)) && i + |Show(ts, gaps)| == |s|
    ensures Lex(s, i) == ts
    decreases |ts|
  {
    if ts == [] {
      LexBlank(s, i, gaps[0]);
    } else {
      var t, e := NextTok(s, i, ts, gaps);
      SpacedRest(ts, gaps);
      LexShow(s, e, ts[1..], gaps[1..]);
      assert ts == [ts[0]] + ts[1..];
    }
  }

  lemma NextTok(s: string, i: nat, ts: seq<Tok>, gaps: seq<string>) returns (t: Tok, e: nat)
    requires ts != [] && Spaced(ts, gaps) && Here(s, i, Show(ts, gaps)) && i + |Show(ts, gaps)| == |s|
    ensures t == ts[0] && e <= |s| && Lex(s, i) == [t] + Lex(s, e)
    ensures Here(s, e, Show(ts[1..], gaps[1..])) && e + |Show(ts[1..], gaps[1..])| == |s|
  {
    t := ts[0];
    SpacedRest(ts, gaps);
    var q := i + |gaps[0]|;
    e := q + |Spell(t)|;
    ThreeParts(s, i, gaps[0], Spell(t), Show(ts[1..], gaps[1..]));
    Behind(s, e, t, ts[1..], gaps[1..]);
    ReadTok(s, q, t, e);
    LexGap(s, i, gaps[0], q);
  }

  lemma ThreeParts(s: string, i: nat, a: string, b: string, c: string)
    requires Here(s, i, a + b + c)
    ensures Here(s, i, a) && Here(s, i + |a|, b) && Here(s, i + |a| + |b|, c)
  {
    HereSplit(s, i, a + b, c);
    HereSplit(s, i, a, b);
  }

  lemma {:induction false} ShowNoNul(ts: seq<Tok>, gaps: seq<string>)
    requires Spaced(ts, gaps)
    ensures NoNul(Show(ts, gaps))
    decreases |ts|
  {
    assert Blank(gaps[0]);
    if ts != [] {
      SpacedRest(ts, gaps);
      ShowNoNul(ts[1..], gaps[1..]);
    }
  }

  /** The round trip for lines as they are written: redirections before, between and behind
      the arguments, pipes, semicolons and ampersands, and parentheses only where wanted. */
  lemma ParseShow(line: Line, gaps: seq<string>)
    requires LineOk(line) && Spaced(LineToks(line), gaps)
    ensures var s := Show(LineToks(line), gaps); ParseCmd(s).Good? && Resolve(s, ParseCmd(s).cmd) == LineTree(line)
  {
    var s := Show(LineToks(line), gaps);
    assert s[0..0 + |s|] == s;
    LexShow(s, 0, LineToks(line), gaps);
    ShowNoNul(LineToks(line), gaps);
    LineParses(s, line);
  }
}

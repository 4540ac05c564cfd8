/** Parsing undoes printing: every command tree, printed with parentheses, is parsed
    back to itself. */
module ShellRoundTrip {
  import opened Shell

  /** A command as text. */
  datatype Tree =
    | TExec(argv: seq<string>)
    | TRedir(t: Tree, file: string, mode: Mode)
    | TPipe(left: Tree, right: Tree)
    | TList(left: Tree, right: Tree)
    | TBack(t: Tree)

  predicate LegalWord(w: string) {
    w != [] && forall k :: 0 <= k < |w| ==> WordChar(w[k]) && w[k] != NUL
  }

  /** Words are not empty and have no white space or symbols; argv has room for them. */
  predicate Legal(t: Tree) {
    match t
    case TExec(argv) => |argv| < MAXARGS && forall i :: 0 <= i < |argv| ==> LegalWord(argv[i])
    case TRedir(c, file, _) => Legal(c) && LegalWord(file)
    case TPipe(l, r) => Legal(l) && Legal(r)
    case TList(l, r) => Legal(l) && Legal(r)
    case TBack(c) => Legal(c)
  }

  function PrintArgs(argv: seq<string>): string {
    if argv == [] then "" else if |argv| == 1 then argv[0] else argv[0] + " " + PrintArgs(argv[1..])
  }

  function Arrow(mode: Mode): char {
    if mode == ReadIn then '<' else '>'
  }

  function Print(t: Tree): string
    decreases t, 0
  {
    match t
    case TExec(argv) => PrintArgs(argv)
    case TRedir(c, file, mode) => Paren(c) + [Arrow(mode)] + file
    case TPipe(l, r) => Paren(l) + ['|'] + Paren(r)
    case TList(l, r) => Paren(l) + [';'] + Paren(r)
    case TBack(c) => Paren(c) + ['&']
  }

  function Paren(t: Tree): string
    decreases t, 1
  {
    "(" + Print(t) + ")"
  }

  function Text(s: string, w: Span): string {
    if w.lo <= w.hi <= |s| then s[w.lo..w.hi] else ""
  }

  /** The text of a parsed command. */
  function Resolve(s: string, cmd: Cmd): Tree {
    match cmd
    case Exec(argv) => TExec(seq(|argv|, i requires 0 <= i < |argv| => Text(s, argv[i])))
    case Redir(c, file, mode) => TRedir(Resolve(s, c), Text(s, file), mode)
    case Pipe(l, r) => TPipe(Resolve(s, l), Resolve(s, r))
    case List(l, r) => TList(Resolve(s, l), Resolve(s, r))
    case Back(c) => TBack(Resolve(s, c))
  }

  /** The text t stands at position i of s. */
  ghost predicate Here(s: string, i: nat, t: string) {
    i + |t| <= |s| && s[i..i + |t|] == t
  }

  lemma HereSplit(s: string, i: nat, a: string, b: string)
    requires Here(s, i, a + b)
    ensures Here(s, i, a) && Here(s, i + |a|, b)
  {
    assert s[i..i + |a + b|][..|a|] == a && s[i..i + |a + b|][|a|..] == b;
  }

  lemma HereChar(s: string, i: nat, c: char)
    requires Here(s, i, [c])
    ensures i < |s| && s[i] == c
  {
    assert s[i..i + 1][0] == s[i];
  }

  /** What may follow a printed command: the end or a closing parenthesis. */
  ghost predicate Stop(s: string, i: nat) {
    i == |s| || (i < |s| && s[i] == ')')
  }

  /** Parsing a line at i gives the tree t and stops at j. */
  ghost predicate Gives(s: string, p: Parsed, t: Tree, j: nat) {
    p.Good? && p.at == j && Resolve(s, p.cmd) == t
  }

  // ----------------------------------------------------------------- tokens

  lemma SymbolToken(s: string, i: nat)
    requires i < |s| && Symbol(s[i]) && s[i] != '>'
    ensures GetToken(s, i) == Token(s[i], Span(i, i + 1), Skip(s, i + 1))
  {
  }

  lemma WordHere(s: string, i: nat, w: string)
    requires Here(s, i, w) && LegalWord(w) && (i + |w| < |s| ==> !WordChar(s[i + |w|]))
    ensures GetToken(s, i) == Token('a', Span(i, i + |w|), Skip(s, i + |w|)) && Text(s, Span(i, i + |w|)) == w
  {
    forall k | 0 <= k < |w| ensures s[i + k] == w[k] { assert s[i..i + |w|][k] == w[k]; }
    assert s[i] == w[0];
    WordEndIs(s, i, i + |w|);
  }

  lemma {:induction false} WordEndIs(s: string, i: nat, j: nat)
    requires i <= j <= |s| && (forall k :: i <= k < j ==> WordChar(s[k])) && (j < |s| ==> !WordChar(s[j]))
    ensures WordEnd(s, i) == j
    decreases j - i
  {
    if i < j { WordEndIs(s, i + 1, j); }
  }

  // -------------------------------------------------------------- arguments

  /** One argument, with no redirection behind it. */
  lemma ArgStep(s: string, args: seq<Span>, i: nat, w: string, at: nat)
    requires Here(s, i, w) && LegalWord(w) && (i + |w| < |s| ==> !WordChar(s[i + |w|])) && |args| + 1 < MAXARGS
    requires at == Skip(s, i + |w|) && (at < |s| ==> s[at] != '<' && s[at] != '>')
    ensures ParseArgs(s, args, [], i) == ParseArgs(s, args + [Span(i, i + |w|)], [], at)
  {
    WordHere(s, i, w);
    assert s[i] == w[0] by { assert s[i..i + |w|][0] == w[0]; }
    assert Skip(s, i) == i;
    assert ParseRedirs(s, at) == Redirs([], at);
    assert [] + ParseRedirs(s, at).list == [];
  }

  lemma ShiftOne(argv: seq<string>, done: seq<string>, rest: seq<string>)
    requires rest != [] && argv == done + rest
    ensures argv == done + [rest[0]] + rest[1..] && argv[|done|] == rest[0] && (|rest| > 1 ==> argv[|done| + 1] == rest[1])
  {
  }

  lemma ArgsEnd(s: string, argv: seq<string>, args: seq<Span>, i: nat)
    requires i <= |s| && Stop(s, i) && |args| == |argv| && forall k :: 0 <= k < |args| ==> Text(s, args[k]) == argv[k]
    ensures Gives(s, ParseArgs(s, args, [], i), TExec(argv), i)
  {
    assert Resolve(s, Exec(args)).argv == argv;
  }

  /** The arguments `rest` at position i, after those in args. */
  lemma {:induction false} ArgsOf(s: string, argv: seq<string>, done: seq<string>, rest: seq<string>, args: seq<Span>, i: nat, j: nat)
    requires Legal(TExec(argv)) && argv == done + rest && Here(s, i, PrintArgs(rest)) && j == i + |PrintArgs(rest)| && Stop(s, j)
    requires |args| == |done| && forall k :: 0 <= k < |args| ==> Text(s, args[k]) == done[k]
    ensures Gives(s, ParseArgs(s, args, [], i), TExec(argv), j)
    decreases |rest|
  {
    if rest == [] {
      ArgsEnd(s, argv, args, i);
    } else {
      ShiftOne(argv, done, rest);
      var w := rest[0];
      assert LegalWord(argv[|done|]);
      assert |rest| > 1 ==> LegalWord(argv[|done| + 1]);
      var at := NextArg(s, rest, i, j);
      var span := Span(i, i + |w|);
      ArgStep(s, args, i, w, at);
      assert Text(s, span) == w;
      ArgsOf(s, argv, done + [w], rest[1..], args + [span], at, j);
    }
  }

  /** Behind the first of the arguments come the others. */
  lemma NextArg(s: string, rest: seq<string>, i: nat, j: nat) returns (at: nat)
    requires rest != [] && LegalWord(rest[0]) && (|rest| > 1 ==> LegalWord(rest[1]))
    requires Here(s, i, PrintArgs(rest)) && j == i + |PrintArgs(rest)| && Stop(s, j)
    ensures Here(s, i, rest[0]) && (i + |rest[0]| < |s| ==> !WordChar(s[i + |rest[0]|]))
    ensures at == Skip(s, i + |rest[0]|) && (at < |s| ==> s[at] != '<' && s[at] != '>')
    ensures Here(s, at, PrintArgs(rest[1..])) && j == at + |PrintArgs(rest[1..])|
  {
    var w := rest[0];
    at := i + |w|;
    if |rest| > 1 {
      HereSplit(s, i, w + " ", PrintArgs(rest[1..]));
      HereSplit(s, i, w, " ");
      HereChar(s, at, ' ');
      NextWord(s, at + 1, rest[1..]);
      at := at + 1;
    } else {
      assert rest[1..] == [];
    }
  }

  lemma NextWord(s: string, i: nat, argv: seq<string>)
    requires argv != [] && Here(s, i, PrintArgs(argv)) && LegalWord(argv[0])
    ensures i < |s| && WordChar(s[i]) && s[i] != NUL
  {
    assert PrintArgs(argv)[0] == argv[0][0];
    assert s[i..i + |PrintArgs(argv)|][0] == s[i];
  }

  // ------------------------------------------------------------------ lines

  lemma PrintStart(s: string, i: nat, t: Tree)
    requires Legal(t) && Here(s, i, Print(t)) && Stop(s, i + |Print(t)|)
    ensures i < |s| ==> !White(s[i]) && s[i] != NUL
    ensures t.TExec? && i < |s| ==> s[i] == ')' || WordChar(s[i])
  {
    if |Print(t)| > 0 { assert s[i..i + |Print(t)|][0] == s[i]; }
    if t.TExec? && t.argv != [] {
      assert LegalWord(t.argv[0]);
      NextWord(s, i, t.argv);
    }
  }

  /** At the end of a printed command nothing more is parsed. */
  lemma StopHere(s: string, j: nat)
    requires j <= |s| && Stop(s, j)
    ensures Skip(s, j) == j && ParseRedirs(s, j) == Redirs([], j) && (forall c: Cmd :: ParseBacks(s, c, j) == Good(c, j))
    ensures !Peek(s, j, "|") && !Peek(s, j, ";") && !Peek(s, j, "(") && !Peek(s, j, "&")
  {
  }

  lemma PipeEnds(s: string, i: nat, c: Cmd, j: nat)
    requires i <= |s| && j <= |s| && ParseExec(s, i) == Good(c, j) && (j < |s| ==> !White(s[j]) && s[j] != '|')
    ensures ParsePipe(s, i) == Good(c, j)
  {
    assert Skip(s, j) == j;
  }

  lemma LineEnds(s: string, i: nat, c: Cmd, j: nat)
    requires i <= |s| && j <= |s| && ParsePipe(s, i) == Good(c, j) && Stop(s, j)
    ensures ParseLine(s, i) == Good(c, j)
  {
    StopHere(s, j);
  }

  /** The command c with the redirections at k. */
  function Redirected(s: string, k: nat, c: Cmd): Parsed
    requires k <= |s|
  {
    match ParseRedirs(s, k)
    case NoFile => Bad
    case Redirs(list, at) => Good(Wrap(c, list), at)
  }

  /** A parenthesised command, from i to k, with what comes behind it. */
  lemma BlockOf(s: string, i: nat, a: nat, b: nat, k: nat, c: Cmd)
    requires a == i + 1 <= b && k == b + 1 <= |s| && (k < |s| ==> !White(s[k])) && s[i] == '(' && s[b] == ')' && !White(s[a])
    requires ParseLine(s, a) == Good(c, b)
    ensures ParseExec(s, i) == Redirected(s, k, c)
  {
    assert Peek(s, i, "(") && GetToken(s, i).next == a by {
      SymbolToken(s, i);
      assert Skip(s, i) == i && Skip(s, a) == a;
    }
    assert Peek(s, b, ")") && GetToken(s, b).next == k by {
      SymbolToken(s, b);
      assert Skip(s, b) == b && Skip(s, k) == k;
    }
    assert ParseBlock(s, i) == Redirected(s, k, c);
  }

  lemma ParenSplit(s: string, i: nat, t: Tree)
    requires Here(s, i, Paren(t))
    ensures i + |Print(t)| + 1 < |s| && s[i] == '(' && Here(s, i + 1, Print(t)) && s[i + 1 + |Print(t)|] == ')'
  {
    HereSplit(s, i, "(" + Print(t), ")");
    HereSplit(s, i, "(", Print(t));
    HereChar(s, i, '(');
    HereChar(s, i + 1 + |Print(t)|, ')');
  }

  /** Parsing a printed tree gives it back. */
  lemma {:induction false} LineOf(s: string, i: nat, t: Tree, j: nat)
    requires Legal(t) && Here(s, i, Print(t)) && j == i + |Print(t)| && Stop(s, j)
    ensures Gives(s, ParseLine(s, i), t, j)
    decreases t, 1
  {
    match t
    case TExec(argv) => ExecOf(s, i, argv, j);
    case TRedir(c, file, mode) => RedirOf(s, i, t, j);
    case TPipe(l, r) => PipeOf(s, i, t, j);
    case TList(l, r) => ListOf(s, i, t, j);
    case TBack(c) => BackOf(s, i, t, j);
  }

  lemma {:induction false} ExecOf(s: string, i: nat, argv: seq<string>, j: nat)
    requires Legal(TExec(argv)) && Here(s, i, Print(TExec(argv))) && j == i + |Print(TExec(argv))| && Stop(s, j)
    ensures Gives(s, ParseLine(s, i), TExec(argv), j)
  {
    PrintStart(s, i, TExec(argv));
    assert Skip(s, i) == i && !Peek(s, i, "(") && ParseRedirs(s, i) == Redirs([], i);
    ArgsOf(s, argv, [], argv, [], i, j);
    var c := ParseArgs(s, [], [], i).cmd;
    PipeEnds(s, i, c, j);
    LineEnds(s, i, c, j);
  }

  /** A command in parentheses, parsed as far as the closing one. */
  lemma {:induction false} InParen(s: string, i: nat, t: Tree, k: nat) returns (c: Cmd)
    requires Legal(t) && Here(s, i, Paren(t)) && k == i + |Paren(t)| && (k < |s| ==> !White(s[k]))
    ensures Resolve(s, c) == t
    ensures ParseExec(s, i) == Redirected(s, k, c)
    decreases t, 2
  {
    var a, b := i + 1, k - 1;
    ParenSplit(s, i, t);
    LineOf(s, a, t, b);
    c := ParseLine(s, a).cmd;
    PrintStart(s, a, t);
    BlockOf(s, i, a, b, k, c);
  }

  /** The same, with no redirection behind it. */
  lemma {:induction false} Alone(s: string, i: nat, t: Tree, k: nat) returns (c: Cmd)
    requires Legal(t) && Here(s, i, Paren(t)) && k == i + |Paren(t)|
    requires k < |s| ==> !White(s[k]) && s[k] != '<' && s[k] != '>'
    ensures Resolve(s, c) == t && ParseExec(s, i) == Good(c, k)
    decreases t, 3
  {
    c := InParen(s, i, t, k);
    assert ParseRedirs(s, k) == Redirs([], k);
  }

  /** Two texts with one character between them. */
  lemma PairSplit(s: string, i: nat, l: string, r: string, op: char, k: nat, m: nat)
    requires Here(s, i, l + [op] + r) && k == i + |l| && m == k + 1
    ensures Here(s, i, l) && k < |s| && s[k] == op && Here(s, m, r)
  {
    HereSplit(s, i, l + [op], r);
    HereSplit(s, i, l, [op]);
    HereChar(s, k, op);
  }

  lemma PipeGlue(s: string, i: nat, a: Cmd, k: nat, m: nat, b: Cmd, j: nat)
    requires i <= |s| && m == k + 1 < |s| && s[k] == '|' && s[m] == '(' && j <= |s| && Stop(s, j)
    requires ParseExec(s, i) == Good(a, k) && ParseExec(s, m) == Good(b, j)
    ensures ParseLine(s, i) == Good(Pipe(a, b), j)
  {
    PipeEnds(s, m, b, j);
    assert Skip(s, k) == k && Skip(s, m) == m;
    SymbolToken(s, k);
    LineEnds(s, i, Pipe(a, b), j);
  }

  lemma {:induction false} PipeOf(s: string, i: nat, t: Tree, j: nat)
    requires t.TPipe? && Legal(t) && Here(s, i, Print(t)) && j == i + |Print(t)| && Stop(s, j)
    ensures Gives(s, ParseLine(s, i), t, j)
    decreases t, 0
  {
    var k := i + |Paren(t.left)|;
    var m := k + 1;
    PairSplit(s, i, Paren(t.left), Paren(t.right), '|', k, m);
    ParenSplit(s, m, t.right);
    var a := Alone(s, i, t.left, k);
    var b := Alone(s, m, t.right, j);
    PipeGlue(s, i, a, k, m, b, j);
  }

  lemma ListGlue(s: string, i: nat, a: Cmd, k: nat, m: nat, b: Cmd, j: nat)
    requires i <= |s| && m == k + 1 < |s| && s[k] == ';' && s[m] == '(' && j <= |s| && Stop(s, j)
    requires ParseExec(s, i) == Good(a, k) && ParseExec(s, m) == Good(b, j)
    ensures ParseLine(s, i) == Good(List(a, b), j)
  {
    PipeEnds(s, i, a, k);
    PipeEnds(s, m, b, j);
    LineEnds(s, m, b, j);
    assert Skip(s, k) == k && Skip(s, m) == m && ParseBacks(s, a, k) == Good(a, k);
    SymbolToken(s, k);
  }

  lemma {:induction false} ListOf(s: string, i: nat, t: Tree, j: nat)
    requires t.TList? && Legal(t) && Here(s, i, Print(t)) && j == i + |Print(t)| && Stop(s, j)
    ensures Gives(s, ParseLine(s, i), t, j)
    decreases t, 0
  {
    var k := i + |Paren(t.left)|;
    var m := k + 1;
    PairSplit(s, i, Paren(t.left), Paren(t.right), ';', k, m);
    ParenSplit(s, m, t.right);
    var a := Alone(s, i, t.left, k);
    var b := Alone(s, m, t.right, j);
    ListGlue(s, i, a, k, m, b, j);
    GivesList(s, ParseLine(s, i), t, a, b, j);
  }

  lemma GivesList(s: string, p: Parsed, t: Tree, a: Cmd, b: Cmd, j: nat)
    requires t.TList? && p == Good(List(a, b), j) && Resolve(s, a) == t.left && Resolve(s, b) == t.right
    ensures Gives(s, p, t, j)
  {
  }

  lemma BackGlue(s: string, i: nat, a: Cmd, k: nat, j: nat)
    requires i <= |s| && k < |s| && s[k] == '&' && j == k + 1 && Stop(s, j) && ParseExec(s, i) == Good(a, k)
    ensures ParseLine(s, i) == Good(Back(a), j)
  {
    PipeEnds(s, i, a, k);
    SymbolToken(s, k);
    StopHere(s, j);
    assert Skip(s, k) == k && ParseBacks(s, a, k) == ParseBacks(s, Back(a), j);
  }

  lemma {:induction false} BackOf(s: string, i: nat, t: Tree, j: nat)
    requires t.TBack? && Legal(t) && Here(s, i, Print(t)) && j == i + |Print(t)| && Stop(s, j)
    ensures Gives(s, ParseLine(s, i), t, j)
    decreases t, 0
  {
    HereSplit(s, i, Paren(t.t), ['&']);
    var k := i + |Paren(t.t)|;
    HereChar(s, k, '&');
    var a := Alone(s, i, t.t, k);
    BackGlue(s, i, a, k, j);
  }

  lemma {:induction false} RedirOf(s: string, i: nat, t: Tree, j: nat)
    requires t.TRedir? && Legal(t) && Here(s, i, Print(t)) && j == i + |Print(t)| && Stop(s, j)
    ensures Gives(s, ParseLine(s, i), t, j)
    decreases t, 0
  {
    var k := i + |Paren(t.t)|;
    PairSplit(s, i, Paren(t.t), t.file, Arrow(t.mode), k, k + 1);
    var a := InParen(s, i, t.t, k);
    FileOf(s, k, t.file, t.mode, j);
    WrapOne(a, Span(k + 1, j), t.mode);
    var c := Redir(a, Span(k + 1, j), t.mode);
    PipeEnds(s, i, c, j);
    LineEnds(s, i, c, j);
  }

  lemma WrapOne(a: Cmd, w: Span, mode: Mode)
    ensures Wrap(a, [(w, mode)]) == Redir(a, w, mode)
  {
    assert [(w, mode)][..0] == [];
  }

  lemma ArrowToken(s: string, k: nat, mode: Mode)
    requires k + 1 < |s| && s[k] == Arrow(mode) && WordChar(s[k + 1])
    ensures Peek(s, k, "<>") && GetToken(s, k) == Token(Arrow(mode), Span(k, k + 1), k + 1)
  {
    assert Skip(s, k) == k && Skip(s, k + 1) == k + 1;
  }

  lemma FileOf(s: string, k: nat, file: string, mode: Mode, j: nat)
    requires k < |s| && s[k] == Arrow(mode) && Here(s, k + 1, file) && LegalWord(file)
    requires j == k + 1 + |file| && Stop(s, j)
    ensures ParseRedirs(s, k) == Redirs([(Span(k + 1, j), mode)], j) && Text(s, Span(k + 1, j)) == file
  {
    assert s[k + 1] == file[0] by { assert s[k + 1..j][0] == file[0]; }
    ArrowToken(s, k, mode);
    WordHere(s, k + 1, file);
    StopHere(s, j);
    assert [(Span(k + 1, j), mode)] + [] == [(Span(k + 1, j), mode)];
  }

  /** The round trip. */
  lemma ParsePrint(t: Tree)
    requires Legal(t)
    ensures ParseCmd(Print(t)).Good? && Resolve(Print(t), ParseCmd(Print(t)).cmd) == t
  {
    var s := Print(t);
    assert s[0..0 + |s|] == s;
    LineOf(s, 0, t, |s|);
  }
}

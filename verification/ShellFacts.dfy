/** What the parser of sh.c does: its tokens are whole words of the line, and they survive
    nulterminate. */
module ShellFacts {
  import opened Shell
  import ShellLines
  import ShellRoundTrip

  // ------------------------------------------------------- tokens are words

  /** A whole word of the line: what is behind it is not part of a word. */
  ghost predicate Word(s: string, w: Span) {
    && w.lo < w.hi <= |s| && (forall k :: w.lo <= k < w.hi ==> WordChar(s[k]))
    && (w.hi < |s| ==> !WordChar(s[w.hi]))
  }

  ghost predicate Words(s: string, cmd: Cmd) {
    match cmd
    case Exec(argv) => forall i :: 0 <= i < |argv| ==> Word(s, argv[i])
    case Redir(c, file, _) => Words(s, c) && Word(s, file)
    case Pipe(l, r) => Words(s, l) && Words(s, r)
    case List(l, r) => Words(s, l) && Words(s, r)
    case Back(c) => Words(s, c)
  }

  ghost predicate ListWords(s: string, list: seq<(Span, Mode)>) {
    forall i :: 0 <= i < |list| ==> Word(s, list[i].0)
  }

  lemma {:induction false} WrapWords(s: string, cmd: Cmd, list: seq<(Span, Mode)>)
    requires Words(s, cmd) && ListWords(s, list)
    ensures Words(s, Wrap(cmd, list))
    decreases |list|
  {
    if list != [] { WrapWords(s, cmd, list[..|list| - 1]); }
  }

  lemma {:induction false} WordEndWord(s: string, i: nat)
    requires i <= |s|
    ensures forall k :: i <= k < WordEnd(s, i) ==> WordChar(s[k])
    decreases |s| - i
  {
    if i < |s| && WordChar(s[i]) { WordEndWord(s, i + 1); }
  }

  lemma TokenWord(s: string, i: nat)
    requires i <= |s|
    ensures GetToken(s, i).kind == 'a' ==> Word(s, GetToken(s, i).span)
  {
    WordEndWord(s, Skip(s, i));
  }

  lemma {:induction false} RedirsWords(s: string, i: nat)
    requires i <= |s|
    ensures ParseRedirs(s, i).Redirs? ==> ListWords(s, ParseRedirs(s, i).list)
    decreases |s| - i
  {
    if Peek(s, i, "<>") {
      var t := GetToken(s, i);
      var w := GetToken(s, t.next);
      TokenWord(s, t.next);
      if w.kind == 'a' { RedirsWords(s, w.next); }
    }
  }

  lemma {:induction false} ArgsWords(s: string, args: seq<Span>, list: seq<(Span, Mode)>, i: nat)
    requires i <= |s| && Words(s, Exec(args)) && ListWords(s, list)
    ensures ParseArgs(s, args, list, i).Good? ==> Words(s, ParseArgs(s, args, list, i).cmd)
    decreases |s| - i
  {
    WrapWords(s, Exec(args), list);
    var t := GetToken(s, i);
    TokenWord(s, i);
    if !Peek(s, i, "|)&;") && t.kind == 'a' && |args| + 1 < MAXARGS {
      RedirsWords(s, t.next);
      var r := ParseRedirs(s, t.next);
      if r.Redirs? { ArgsWords(s, args + [t.span], list + r.list, r.at); }
    }
  }

  lemma {:induction false} ExecWords(s: string, i: nat)
    requires i <= |s|
    ensures ParseExec(s, i).Good? ==> Words(s, ParseExec(s, i).cmd)
    decreases |s| - i, 0
  {
    if Peek(s, i, "(") {
      BlockWords(s, i);
    } else {
      RedirsWords(s, i);
      var r := ParseRedirs(s, i);
      if r.Redirs? { ArgsWords(s, [], r.list, r.at); }
    }
  }

  lemma {:induction false} BlockWords(s: string, i: nat)
    requires i <= |s| && Peek(s, i, "(")
    ensures ParseBlock(s, i).Good? ==> Words(s, ParseBlock(s, i).cmd)
    decreases |s| - Skip(s, i), -1
  {
    LineWords(s, GetToken(s, i).next);
    var r := ParseLine(s, GetToken(s, i).next);
    if r.Good? && Peek(s, r.at, ")") {
      var k := GetToken(s, r.at).next;
      RedirsWords(s, k);
      if ParseRedirs(s, k).Redirs? { WrapWords(s, r.cmd, ParseRedirs(s, k).list); }
    }
  }

  lemma {:induction false} PipeWords(s: string, i: nat)
    requires i <= |s|
    ensures ParsePipe(s, i).Good? ==> Words(s, ParsePipe(s, i).cmd)
    decreases |s| - i, 1
  {
    ExecWords(s, i);
    var r := ParseExec(s, i);
    if r.Good? && Peek(s, r.at, "|") { PipeWords(s, GetToken(s, r.at).next); }
  }

  lemma {:induction false} BacksWords(s: string, cmd: Cmd, i: nat)
    requires i <= |s| && Words(s, cmd)
    ensures Words(s, ParseBacks(s, cmd, i).cmd)
    decreases |s| - i
  {
    if Peek(s, i, "&") { BacksWords(s, Back(cmd), GetToken(s, i).next); }
  }

  lemma {:induction false} LineWords(s: string, i: nat)
    requires i <= |s|
    ensures ParseLine(s, i).Good? ==> Words(s, ParseLine(s, i).cmd)
    decreases |s| - i, 2
  {
    PipeWords(s, i);
    var r := ParsePipe(s, i);
    if r.Good? {
      BacksWords(s, r.cmd, r.at);
      var b := ParseBacks(s, r.cmd, r.at);
      if Peek(s, b.at, ";") { LineWords(s, GetToken(s, b.at).next); }
    }
  }

  // ---------------------------------------------------------- nulterminate

  /** The tokens of a command. */
  function Spans(cmd: Cmd): set<Span> {
    match cmd
    case Exec(argv) => set i | 0 <= i < |argv| :: argv[i]
    case Redir(c, file, _) => Spans(c) + {file}
    case Pipe(l, r) => Spans(l) + Spans(r)
    case List(l, r) => Spans(l) + Spans(r)
    case Back(c) => Spans(c)
  }

  lemma {:induction false} SpansAreWords(s: string, cmd: Cmd, w: Span)
    requires Words(s, cmd) && w in Spans(cmd)
    ensures Word(s, w)
  {
    match cmd
    case Exec(argv) =>
    case Redir(c, file, _) => if w != file { SpansAreWords(s, c, w); }
    case Pipe(l, r) => if w in Spans(l) { SpansAreWords(s, l, w); } else { SpansAreWords(s, r, w); }
    case List(l, r) => if w in Spans(l) { SpansAreWords(s, l, w); } else { SpansAreWords(s, r, w); }
    case Back(c) => SpansAreWords(s, c, w);
  }

  /** Position k is where some token ends. */
  ghost predicate Ends(cmd: Cmd, k: nat) {
    exists w :: w in Spans(cmd) && w.hi == k
  }

  /** nulterminate: a NUL behind every token, and nothing else. */
  method Nulterminate(buf: array<char>, cmd: Cmd)
    requires forall w :: w in Spans(cmd) ==> w.hi < buf.Length
    modifies buf
    ensures forall k :: 0 <= k < buf.Length ==> buf[k] == if Ends(cmd, k) then NUL else old(buf[k])
  {
    match cmd
    case Exec(argv) =>
      for i := 0 to |argv|
        invariant forall k :: 0 <= k < buf.Length ==> buf[k] == if exists j :: 0 <= j < i && argv[j].hi == k then NUL else old(buf[k])
      {
        assert argv[i] in Spans(cmd);
        buf[argv[i].hi] := NUL;
      }
      forall k | 0 <= k < buf.Length ensures Ends(cmd, k) <==> exists j :: 0 <= j < |argv| && argv[j].hi == k {
        if j :| 0 <= j < |argv| && argv[j].hi == k { assert argv[j] in Spans(cmd); }
      }
    case Redir(c, file, _) =>
      Nulterminate(buf, c);
      assert file in Spans(cmd);
      buf[file.hi] := NUL;
    case Pipe(l, r) =>
      Nulterminate(buf, l);
      Nulterminate(buf, r);
    case List(l, r) =>
      Nulterminate(buf, l);
      Nulterminate(buf, r);
    case Back(c) =>
      Nulterminate(buf, c);
  }

  /** The C string at position i of a buffer. */
  function CString(b: seq<char>, i: nat): string
    requires i <= |b|
    decreases |b| - i
  {
    if i < |b| && b[i] != NUL then [b[i]] + CString(b, i + 1) else []
  }

  lemma {:induction false} CStringIs(b: seq<char>, lo: nat, hi: nat)
    requires lo <= hi < |b| && b[hi] == NUL && forall k :: lo <= k < hi ==> b[k] != NUL
    ensures CString(b, lo) == b[lo..hi]
    decreases hi - lo
  {
    if lo < hi {
      CStringIs(b, lo + 1, hi);
      assert b[lo..hi] == [b[lo]] + b[lo + 1..hi];
    }
  }

  /** No terminator lands inside another token. */
  lemma TokenSafe(s: string, cmd: Cmd, w: Span, k: nat)
    requires Words(s, cmd) && w in Spans(cmd) && w.lo <= k < w.hi
    ensures k < |s| && !Ends(cmd, k)
  {
    SpansAreWords(s, cmd, w);
    forall v | v in Spans(cmd) ensures v.hi != k { SpansAreWords(s, cmd, v); }
  }

  /** After nulterminate the token is a C string. */
  lemma TokenIsString(s: string, cmd: Cmd, w: Span, b: seq<char>)
    requires NoNul(s) && Words(s, cmd) && w in Spans(cmd) && Word(s, w) && |b| == |s| + 1
    requires forall k :: 0 <= k < |b| ==> b[k] == if Ends(cmd, k) then NUL else (s + [NUL])[k]
    ensures w.lo <= w.hi <= |s| && CString(b, w.lo) == s[w.lo..w.hi]
  {
    assert Ends(cmd, w.hi);
    forall k | w.lo <= k < w.hi ensures b[k] == s[k] { TokenSafe(s, cmd, w, k); }
    CStringIs(b, w.lo, w.hi);
    assert b[w.lo..w.hi] == s[w.lo..w.hi];
  }

  lemma Means(s: string)
    requires NoNul(s)
    ensures ParseCmd(s).Good? <==> exists line :: ShellLines.LineOk(line) && ShellLines.Lex(s, 0) == ShellLines.LineToks(line)
    ensures forall line :: ShellLines.LineOk(line) && ShellLines.Lex(s, 0) == ShellLines.LineToks(line) ==>
      ParseCmd(s).Good? && ShellRoundTrip.Resolve(s, ParseCmd(s).cmd) == ShellLines.LineTree(line)
  {
    ShellLines.AcceptsExactly(s);
    forall line | ShellLines.LineOk(line) && ShellLines.Lex(s, 0) == ShellLines.LineToks(line)
      ensures ParseCmd(s).Good? && ShellRoundTrip.Resolve(s, ParseCmd(s).cmd) == ShellLines.LineTree(line)
    {
      ShellLines.LineParses(s, line);
    }
  }

  /** parsecmd: it accepts the lines of the grammar, with their meaning; every argument and
      file name is then a C string of its own. */
  method Parsecmd(buf: array<char>, ghost s: string) returns (r: Parsed)
    requires NoNul(s) && buf[..] == s + [NUL]
    modifies buf
    ensures r == ParseCmd(s)
    ensures r.Good? <==> exists line :: ShellLines.LineOk(line) && ShellLines.Lex(s, 0) == ShellLines.LineToks(line)
    ensures forall line :: ShellLines.LineOk(line) && ShellLines.Lex(s, 0) == ShellLines.LineToks(line) ==>
      r.Good? && ShellRoundTrip.Resolve(s, r.cmd) == ShellLines.LineTree(line)
    ensures r.Good? ==> forall w :: w in Spans(r.cmd) ==> w.lo <= w.hi <= |s| && CString(buf[..], w.lo) == s[w.lo..w.hi]
  {
    var line := buf[..buf.Length - 1];
    assert line == s;
    r := ParseCmd(line);
    Means(s);
    if r.Good? {
      LineWords(s, 0);
      forall w | w in Spans(r.cmd) ensures Word(s, w) { SpansAreWords(s, r.cmd, w); }
      Nulterminate(buf, r.cmd);
      ghost var b := buf[..];
      forall k | 0 <= k < |b| ensures b[k] == if Ends(r.cmd, k) then NUL else (s + [NUL])[k] { assert b[k] == buf[k]; }
      forall w | w in Spans(r.cmd) ensures CString(b, w.lo) == s[w.lo..w.hi] { TokenIsString(s, r.cmd, w, b); }
    }
  }
}

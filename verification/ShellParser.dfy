/** The recursive descent parser of sh.c, and nulterminate. */
module ShellParser {
  import opened ShellGrammar
  import opened ShellLexer

  /** A word of the buffer: the pointers q and eq of the source. */
  datatype Span = Span(q: nat, eq: nat)

  /** A command as the parser builds it, with pointers into the buffer. */
  datatype Cmd =
    | ExecCmd(argv: seq<Span>)
    | RedirCmd(cmd: Cmd, file: Span, dir: Direction)
    | PipeCmd(left: Cmd, right: Cmd)
    | ListCmd(left: Cmd, right: Cmd)
    | BackCmd(cmd: Cmd)

  /** All its words are words of the text. */
  predicate Sound(s: string, c: Cmd) {
    match c
    case ExecCmd(argv) => forall k :: 0 <= k < |argv| ==> WordSpan(s, argv[k].q, argv[k].eq)
    case RedirCmd(d, f, _) => Sound(s, d) && WordSpan(s, f.q, f.eq)
    case PipeCmd(l, r) => Sound(s, l) && Sound(s, r)
    case ListCmd(l, r) => Sound(s, l) && Sound(s, r)
    case BackCmd(d) => Sound(s, d)
  }

  function Text(s: string, w: Span): string { if w.q <= w.eq <= |s| then s[w.q..w.eq] else "" }

  function Texts(s: string, argv: seq<Span>): (r: seq<string>)
    ensures |r| == |argv|
  {
    seq(|argv|, k requires 0 <= k < |argv| => Text(s, argv[k]))
  }

  /** The tree with the words themselves. */
  function Named(s: string, c: Cmd): Tree {
    match c
    case ExecCmd(argv) => Exec(Texts(s, argv))
    case RedirCmd(d, f, dir) => Redir(Named(s, d), Text(s, f), dir)
    case PipeCmd(l, r) => Pipe(Named(s, l), Named(s, r))
    case ListCmd(l, r) => List(Named(s, l), Named(s, r))
    case BackCmd(d) => Back(Named(s, d))
  }

  /** What a parse function returns fits what the grammar says of the remaining tokens. */
  ghost predicate Agrees(s: string, p: Parse, ok: bool, c: Cmd, j: nat) {
    && (ok <==> p.Some?)
    && (ok ==> j <= |s| && Sound(s, c) && Named(s, c) == p.tree && Lex(s, j) == p.rest)
  }

  /** One turn of the loop of parseredirs. */
  method ParseRedir(s: string, cmd: Cmd, i: nat) returns (ok: bool, c: Cmd, j: nat)
    requires i <= |s| && Sound(s, cmd) && StartsRedir(Lex(s, i))
    ensures var ts := Lex(s, i); ok <==> |ts| >= 2 && ts[1].Word?
    ensures ok ==>
      var ts := Lex(s, i);
      && j <= |s| && Sound(s, c) && Lex(s, j) == ts[2..]
      && Named(s, c) == Redir(Named(s, cmd), ts[1].text, Direct(ts[0]))
  {
    var tok, q, eq, k := GetToken(s, i);
    var ret;
    ret, q, eq, j := GetToken(s, k);
    c := RedirCmd(cmd, Span(q, eq), if tok == '<' then Input else Output);
    ok := ret == 'a';
  }

  /** parseredirs */
  method ParseRedirs(s: string, cmd: Cmd, i: nat) returns (ok: bool, c: Cmd, j: nat)
    requires i <= |s| && Sound(s, cmd)
    ensures Agrees(s, Redirs(Named(s, cmd), Lex(s, i)), ok, c, j)
  {
    c, j := cmd, i;
    ghost var p := Redirs(Named(s, cmd), Lex(s, i));
    while true
      invariant j <= |s| && Sound(s, c) && Redirs(Named(s, c), Lex(s, j)) == p
      decreases |Lex(s, j)|
    {
      var more;
      more, j := Peek(s, j, "<>");
      if !more {
        return true, c, j;
      }
      ok, c, j := ParseRedir(s, c, j);
      if !ok {
        return;
      }
    }
  }

  // ----- words go into the Exec at the bottom -----

  function WordCount(c: Cmd): nat {
    match c
    case RedirCmd(d, _, _) => WordCount(d)
    case ExecCmd(argv) => |argv|
    case _ => 0
  }

  function WithWord(c: Cmd, w: Span): Cmd {
    match c
    case RedirCmd(d, f, dir) => RedirCmd(WithWord(d, w), f, dir)
    case ExecCmd(argv) => ExecCmd(argv + [w])
    case _ => c
  }

  lemma {:induction false} WithWordNamed(s: string, c: Cmd, w: Span)
    requires Sound(s, c) && WordSpan(s, w.q, w.eq)
    ensures Sound(s, WithWord(c, w)) && Named(s, WithWord(c, w)) == AddWord(Named(s, c), Text(s, w))
  {
    match c
    case RedirCmd(d, f, dir) => WithWordNamed(s, d, w);
    case ExecCmd(argv) => assert Texts(s, argv + [w]) == Texts(s, argv) + [Text(s, w)];
    case _ =>
  }

  lemma {:induction false} WordCountIs(s: string, c: Cmd)
    ensures WordCount(c) == Count(Named(s, c))
  {
    if c.RedirCmd? {
      WordCountIs(s, c.cmd);
    }
  }

  /** How a turn of the loop of parseexec ends. */
  datatype Turn = Again | Done | Panic

  /** The next token of a command is a word, which is added, and redirections may follow. */
  method AddArg(s: string, cmd: Cmd, w: Span, i: nat) returns (ok: bool, c: Cmd, j: nat)
    requires i <= |s| && Sound(s, cmd) && WordSpan(s, w.q, w.eq)
    ensures ok <==> Redirs(AddWord(Named(s, cmd), Text(s, w)), Lex(s, i)).Some?
    ensures ok ==> j <= |s| && Sound(s, c) && |Lex(s, j)| <= |Lex(s, i)|
    ensures RedirsArgs(AddWord(Named(s, cmd), Text(s, w)), Lex(s, i)) == if ok then Args(Named(s, c), Lex(s, j))
            else None
  {
    WithWordNamed(s, cmd, w);
    ok, c, j := ParseRedirs(s, WithWord(cmd, w), i);
  }

  /** One turn of the loop of parseexec. */
  method ParseArg(s: string, cmd: Cmd, i: nat) returns (t: Turn, c: Cmd, j: nat)
    requires i <= |s| && Sound(s, cmd)
    ensures t.Panic? ==> Args(Named(s, cmd), Lex(s, i)) == None
    ensures t.Done? ==> Agrees(s, Args(Named(s, cmd), Lex(s, i)), true, c, j)
    ensures t.Again? ==> j <= |s| && Sound(s, c) && |Lex(s, j)| < |Lex(s, i)|
    ensures t.Again? ==> Args(Named(s, c), Lex(s, j)) == Args(Named(s, cmd), Lex(s, i))
  {
    ghost var tree, ts := Named(s, cmd), Lex(s, i);
    ArgsUnfold(tree, ts);
    var stop, k := Peek(s, i, "|)&;");
    c, j := cmd, k;
    if stop {
      return Done, c, j;
    }
    var tok, q, eq;
    tok, q, eq, j := GetToken(s, k);
    if tok == '\0' {
      return Done, c, j;
    }
    WordCountIs(s, c);
    if tok != 'a' || WordCount(c) + 1 >= MAXARGS {
      return Panic, c, j;
    }
    var ok;
    ok, c, j := AddArg(s, cmd, Span(q, eq), j);
    t := if ok then Again else Panic;
  }

  /** The loop of parseexec. */
  method ParseArgs(s: string, cmd: Cmd, i: nat) returns (ok: bool, c: Cmd, j: nat)
    requires i <= |s| && Sound(s, cmd)
    ensures Agrees(s, Args(Named(s, cmd), Lex(s, i)), ok, c, j)
  {
    c, j := cmd, i;
    while true
      invariant j <= |s| && Sound(s, c) && Args(Named(s, c), Lex(s, j)) == Args(Named(s, cmd), Lex(s, i))
      decreases |Lex(s, j)|
    {
      var t;
      t, c, j := ParseArg(s, c, j);
      if !t.Again? {
        return t.Done?, c, j;
      }
    }
  }

  // ----- the levels of the grammar -----

  /** parseexec */
  method ParseExec(s: string, i: nat) returns (ok: bool, c: Cmd, j: nat)
    requires i <= |s|
    ensures Agrees(s, ExecOf(Lex(s, i)), ok, c, j)
    decreases |Lex(s, i)|, 1
  {
    var block, k := Peek(s, i, "(");
    if block {
      ok, c, j := ParseBlock(s, k);
      return;
    }
    assert Texts(s, []) == [];
    ok, c, j := ParseRedirs(s, ExecCmd([]), k);
    if ok {
      ok, c, j := ParseArgs(s, c, j);
    }
  }

  /** parseblock */
  method ParseBlock(s: string, i: nat) returns (ok: bool, c: Cmd, j: nat)
    requires i <= |s| && Starts(Lex(s, i), '(')
    ensures Agrees(s, ExecOf(Lex(s, i)), ok, c, j)
    decreases |Lex(s, i)|, 0
  {
    var tok, q, eq, k := GetToken(s, i);
    ok, c, k := ParseLine(s, k);
    if !ok {
      return false, c, k;
    }
    var close;
    close, k := Peek(s, k, ")");
    if !close {
      return false, c, k;
    }
    tok, q, eq, k := GetToken(s, k);
    ok, c, j := ParseRedirs(s, c, k);
  }

  /** parsepipe */
  method ParsePipe(s: string, i: nat) returns (ok: bool, c: Cmd, j: nat)
    requires i <= |s|
    ensures Agrees(s, PipeOf(Lex(s, i)), ok, c, j)
    decreases |Lex(s, i)|, 2
  {
    ok, c, j := ParseExec(s, i);
    if !ok {
      return;
    }
    var more;
    more, j := Peek(s, j, "|");
    if more {
      var tok, q, eq, k := GetToken(s, j);
      var d;
      ok, d, j := ParsePipe(s, k);
      c := PipeCmd(c, d);
    }
  }

  /** The loop of parseline. */
  method ParseBacks(s: string, cmd: Cmd, i: nat) returns (c: Cmd, j: nat)
    requires i <= |s| && Sound(s, cmd)
    ensures Agrees(s, Backs(Named(s, cmd), Lex(s, i)), true, c, j)
  {
    c, j := cmd, i;
    while true
      invariant j <= |s| && Sound(s, c) && Backs(Named(s, c), Lex(s, j)) == Backs(Named(s, cmd), Lex(s, i))
      decreases |Lex(s, j)|
    {
      var more;
      more, j := Peek(s, j, "&");
      if !more {
        return;
      }
      var tok, q, eq;
      tok, q, eq, j := GetToken(s, j);
      c := BackCmd(c);
    }
  }

  /** parseline */
  method ParseLine(s: string, i: nat) returns (ok: bool, c: Cmd, j: nat)
    requires i <= |s|
    ensures Agrees(s, LineOf(Lex(s, i)), ok, c, j)
    decreases |Lex(s, i)|, 3
  {
    ok, c, j := ParsePipe(s, i);
    if !ok {
      return;
    }
    c, j := ParseBacks(s, c, j);
    var more;
    more, j := Peek(s, j, ";");
    if more {
      var tok, q, eq, k := GetToken(s, j);
      var d;
      ok, d, j := ParseLine(s, k);
      c := ListCmd(c, d);
    }
  }

  // ----- the end of the parse -----

  /** nulterminate: a NUL after each word of the command. */
  method NulTerminate(buf: array<char>, c: Cmd, ghost s: string)
    requires Sound(s, c) && buf.Length == |s| + 1
    modifies buf
    ensures forall k :: 0 <= k < buf.Length ==> buf[k] == if Ends(c, k) then '\0' else old(buf[k])
    decreases c
  {
    match c
    case ExecCmd(argv) =>
      for i := 0 to |argv|
        invariant forall k :: 0 <= k < buf.Length ==>
          buf[k] == if exists x :: 0 <= x < i && argv[x].eq == k then '\0' else old(buf[k])
      {
        assert WordSpan(s, argv[i].q, argv[i].eq);
        buf[argv[i].eq] := '\0';
      }
    case RedirCmd(d, f, _) =>
      NulTerminate(buf, d, s);
      buf[f.eq] := '\0';
    case PipeCmd(l, r) =>
      NulTerminate(buf, l, s);
      NulTerminate(buf, r, s);
    case ListCmd(l, r) =>
      NulTerminate(buf, l, s);
      NulTerminate(buf, r, s);
    case BackCmd(d) =>
      NulTerminate(buf, d, s);
  }

  /** Some word of the command ends at k. */
  ghost predicate Ends(c: Cmd, k: nat) {
    match c
    case ExecCmd(argv) => exists x :: 0 <= x < |argv| && argv[x].eq == k
    case RedirCmd(d, f, _) => Ends(d, k) || f.eq == k
    case PipeCmd(l, r) => Ends(l, k) || Ends(r, k)
    case ListCmd(l, r) => Ends(l, k) || Ends(r, k)
    case BackCmd(d) => Ends(d, k)
  }

  /** w is one of the words of the command. */
  ghost predicate Mentions(c: Cmd, w: Span) {
    match c
    case ExecCmd(argv) => w in argv
    case RedirCmd(d, f, _) => Mentions(d, w) || f == w
    case PipeCmd(l, r) => Mentions(l, w) || Mentions(r, w)
    case ListCmd(l, r) => Mentions(l, w) || Mentions(r, w)
    case BackCmd(d) => Mentions(d, w)
  }

  lemma {:induction false} EndsOutside(s: string, c: Cmd, k: nat)
    requires Sound(s, c) && Ends(c, k)
    ensures k <= |s| && (k < |s| ==> !InWord(s[k]))
  {
    match c
    case ExecCmd(argv) =>
    case RedirCmd(d, f, _) => if Ends(d, k) { EndsOutside(s, d, k); }
    case PipeCmd(l, r) => if Ends(l, k) { EndsOutside(s, l, k); } else { EndsOutside(s, r, k); }
    case ListCmd(l, r) => if Ends(l, k) { EndsOutside(s, l, k); } else { EndsOutside(s, r, k); }
    case BackCmd(d) => EndsOutside(s, d, k);
  }

  lemma {:induction false} MentionedEnds(s: string, c: Cmd, w: Span)
    requires Sound(s, c) && Mentions(c, w)
    ensures WordSpan(s, w.q, w.eq) && Ends(c, w.eq)
  {
    match c
    case ExecCmd(argv) =>
    case RedirCmd(d, f, _) => if Mentions(d, w) { MentionedEnds(s, d, w); }
    case PipeCmd(l, r) => if Mentions(l, w) { MentionedEnds(s, l, w); } else { MentionedEnds(s, r, w); }
    case ListCmd(l, r) => if Mentions(l, w) { MentionedEnds(s, l, w); } else { MentionedEnds(s, r, w); }
    case BackCmd(d) => MentionedEnds(s, d, w);
  }

  /** The C string at q. */
  ghost predicate StringAt(buf: seq<char>, q: nat, w: string) {
    q + |w| < |buf| && buf[q..q + |w|] == w && buf[q + |w|] == '\0' && forall k :: 0 <= k < |w| ==> w[k] != '\0'
  }

  /** No terminator lands inside a word, so every word of the command is its token again. */
  lemma TerminatedWords(s: string, c: Cmd, buf: seq<char>, w: Span)
    requires Sound(s, c) && Mentions(c, w) && |buf| == |s| + 1 && forall k :: 0 <= k < |s| ==> s[k] != '\0'
    requires forall k :: 0 <= k < |buf| ==> buf[k] == if Ends(c, k) then '\0' else if k < |s| then s[k] else '\0'
    ensures StringAt(buf, w.q, Text(s, w))
  {
    MentionedEnds(s, c, w);
    forall k | w.q <= k < w.eq
      ensures buf[k] == s[k]
    {
      if Ends(c, k) {
        EndsOutside(s, c, k);
        assert false;
      }
    }
    assert buf[w.q..w.eq] == s[w.q..w.eq];
  }

  /** parsecmd: the command, with its words terminated in the buffer; false where the source panics. */
  method ParseCmd(buf: array<char>, s: string) returns (ok: bool, c: Cmd)
    requires buf.Length == |s| + 1 && buf[..|s|] == s && buf[|s|] == '\0' && forall k :: 0 <= k < |s| ==> s[k] != '\0'
    modifies buf
    ensures ok <==> Command(Lex(s, 0)).Some?
    ensures ok ==> Sound(s, c) && Named(s, c) == Command(Lex(s, 0)).tree
    ensures ok <==> exists t :: DerivesLine(Lex(s, 0), t)
    ensures ok ==> forall t :: DerivesLine(Lex(s, 0), t) <==> t == Named(s, c)
    ensures ok ==> forall w :: Mentions(c, w) ==> StringAt(buf[..], w.q, Text(s, w))
  {
    forall t
      ensures Command(Lex(s, 0)) == Some(t, []) <==> DerivesLine(Lex(s, 0), t)
    {
      ParsesIff(Lex(s, 0), t);
    }
    var j;
    ok, c, j := ParseLine(s, 0);
    if !ok {
      return;
    }
    j := SkipSpace(s, j);
    if j != |s| {
      return false, c;
    }
    assert DerivesLine(Lex(s, 0), Named(s, c));
    NulTerminate(buf, c, s);
    forall w | Mentions(c, w)
      ensures StringAt(buf[..], w.q, Text(s, w))
    {
      TerminatedWords(s, c, buf[..], w);
    }
  }

  /** All the words of a tree are words of the shell. */
  predicate Wordly(t: Tree) {
    match t
    case Exec(argv) => forall k :: 0 <= k < |argv| ==> Spellable(Word(argv[k]))
    case Redir(d, f, _) => Wordly(d) && Spellable(Word(f))
    case Pipe(l, r) => Wordly(l) && Wordly(r)
    case List(l, r) => Wordly(l) && Wordly(r)
    case Back(d) => Wordly(d)
  }

  lemma {:induction false} WordsSpellable(argv: seq<string>)
    requires forall k :: 0 <= k < |argv| ==> Spellable(Word(argv[k]))
    ensures AllSpellable(Words(argv))
  {
    if argv != [] {
      WordsSpellable(argv[1..]);
    }
  }

  lemma {:induction false} ExecSpellable(t: Tree)
    requires Wordly(t)
    ensures AllSpellable(ShowExec(t))
    decreases t, if t.Exec? || t.Redir? then 0 else 4
  {
    match t
    case Exec(argv) => WordsSpellable(argv);
    case Redir(c, f, d) => ExecSpellable(c);
    case _ => LineSpellable(t);
  }

  lemma {:induction false} PipeSpellable(t: Tree)
    requires Wordly(t)
    ensures AllSpellable(ShowPipe(t))
    decreases t, if t.Back? || t.List? then 5 else 1
  {
    if t.Pipe? {
      ExecSpellable(t.left);
      PipeSpellable(t.right);
    } else {
      ExecSpellable(t);
    }
  }

  lemma {:induction false} BacksSpellable(t: Tree)
    requires Wordly(t)
    ensures AllSpellable(ShowBacks(t))
    decreases t, if t.List? then 6 else 2
  {
    if t.Back? {
      BacksSpellable(t.cmd);
    } else {
      PipeSpellable(t);
    }
  }

  lemma {:induction false} LineSpellable(t: Tree)
    requires Wordly(t)
    ensures AllSpellable(ShowLine(t))
    decreases t, 3
  {
    if t.List? {
      BacksSpellable(t.left);
      LineSpellable(t.right);
    } else {
      BacksSpellable(t);
    }
  }

  /** Every command tree whose words are words of the shell, fewer than MAXARGS in each command, is what
      the parser reads from its printing. */
  lemma ParsesPrinting(t: Tree)
    requires Printable(t) && Wordly(t)
    ensures Command(Lex(Render(ShowLine(t)), 0)) == Some(t, [])
  {
    var s := Render(ShowLine(t));
    assert s[0..] == s;
    LineSpellable(t);
    RenderLex(s, 0, ShowLine(t));
    RoundTrip(t);
  }
}

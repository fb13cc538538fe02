/** The parser of sh.c over tokens, the grammar that it recognises, and a printer.

    A panic of the source is None. */
module ShellGrammar {
  const MAXARGS: nat := 10

  /** '+' stands for ">>". */
  datatype Token = Word(text: string) | Sym(c: char)

  datatype Direction = Input | Output

  /** A command as a value.  Both > and >> give Output, as in the source. */
  datatype Tree =
    | Exec(argv: seq<string>)
    | Redir(cmd: Tree, file: string, dir: Direction)
    | Pipe(left: Tree, right: Tree)
    | List(left: Tree, right: Tree)
    | Back(cmd: Tree)

  /** A command and the tokens after it. */
  datatype Parse = Some(tree: Tree, rest: seq<Token>) | None

  predicate Starts(ts: seq<Token>, c: char) { ts != [] && ts[0] == Sym(c) }

  predicate StartsRedir(ts: seq<Token>) { Starts(ts, '<') || Starts(ts, '>') || Starts(ts, '+') }

  /** Ends the words of a command. */
  predicate StartsStop(ts: seq<Token>) { Starts(ts, '|') || Starts(ts, ')') || Starts(ts, '&') || Starts(ts, ';') }

  predicate NoLonger(p: Parse, ts: seq<Token>) { p.Some? ==> |p.rest| <= |ts| }

  function Direct(t: Token): Direction { if t == Sym('<') then Input else Output }

  /** parseredirs */
  function Redirs(cmd: Tree, ts: seq<Token>): (p: Parse)
    ensures NoLonger(p, ts) && (p.Some? ==> !StartsRedir(p.rest))
    decreases |ts|
  {
    if !StartsRedir(ts) then Some(cmd, ts)
    else if |ts| < 2 || !ts[1].Word? then None
    else Redirs(Redir(cmd, ts[1].text, Direct(ts[0])), ts[2..])
  }

  /** The loop of parseexec: the words collected so far are in the Exec at the bottom of cmd. */
  function Args(cmd: Tree, ts: seq<Token>): (p: Parse)
    ensures NoLonger(p, ts)
    decreases |ts|
  {
    if StartsStop(ts) || ts == [] then Some(cmd, ts)
    else if !ts[0].Word? || Count(cmd) + 1 >= MAXARGS then None
    else
      match Redirs(AddWord(cmd, ts[0].text), ts[1..])
      case None => None
      case Some(c, rest) => Args(c, rest)
  }

  /** Redirections, then more words. */
  function RedirsArgs(c: Tree, ts: seq<Token>): Parse {
    match Redirs(c, ts)
    case None => None
    case Some(c', rest) => Args(c', rest)
  }

  lemma ArgsUnfold(cmd: Tree, ts: seq<Token>)
    ensures StartsStop(ts) || ts == [] ==> Args(cmd, ts) == Some(cmd, ts)
    ensures !StartsStop(ts) && ts != [] && (!ts[0].Word? || Count(cmd) + 1 >= MAXARGS) ==> Args(cmd, ts) == None
    ensures ts != [] && ts[0].Word? && Count(cmd) + 1 < MAXARGS ==>
              Args(cmd, ts) == RedirsArgs(AddWord(cmd, ts[0].text), ts[1..])
  {
  }

  /** The number of words of the Exec at the bottom. */
  function Count(cmd: Tree): nat {
    match cmd
    case Redir(c, _, _) => Count(c)
    case Exec(argv) => |argv|
    case _ => 0
  }

  function AddWord(cmd: Tree, w: string): Tree {
    match cmd
    case Redir(c, f, d) => Redir(AddWord(c, w), f, d)
    case Exec(argv) => Exec(argv + [w])
    case _ => cmd
  }

  /** parseexec and parseblock */
  function ExecOf(ts: seq<Token>): (p: Parse)
    ensures NoLonger(p, ts)
    decreases |ts|, 0
  {
    if Starts(ts, '(') then
      match LineOf(ts[1..])
      case None => None
      case Some(c, rest) => if Starts(rest, ')') then Redirs(c, rest[1..]) else None
    else
      match Redirs(Exec([]), ts)
      case None => None
      case Some(c, rest) => Args(c, rest)
  }

  /** parsepipe */
  function PipeOf(ts: seq<Token>): (p: Parse)
    ensures NoLonger(p, ts)
    decreases |ts|, 1
  {
    match ExecOf(ts)
    case None => None
    case Some(c, rest) =>
      if !Starts(rest, '|') then Some(c, rest)
      else
        match PipeOf(rest[1..])
        case None => None
        case Some(d, rest') => Some(Pipe(c, d), rest')
  }

  /** The loop of parseline. */
  function Backs(cmd: Tree, ts: seq<Token>): (p: Parse)
    ensures p.Some? && NoLonger(p, ts)
    decreases |ts|
  {
    if Starts(ts, '&') then Backs(Back(cmd), ts[1..]) else Some(cmd, ts)
  }

  /** parseline */
  function LineOf(ts: seq<Token>): (p: Parse)
    ensures NoLonger(p, ts)
    decreases |ts|, 2
  {
    match PipeOf(ts)
    case None => None
    case Some(c, rest) =>
      var b := Backs(c, rest);
      if !Starts(b.rest, ';') then b
      else
        match LineOf(b.rest[1..])
        case None => None
        case Some(d, rest') => Some(List(b.tree, d), rest')
  }

  /** parsecmd: nothing is left over. */
  function Command(ts: seq<Token>): (p: Parse) {
    var p := LineOf(ts);
    if p.Some? && p.rest == [] then p else None
  }

  // ----- the grammar -----

  predicate IsArrow(t: Token) { t == Sym('<') || t == Sym('>') || t == Sym('+') }

  /** Words and redirections in any order. */
  predicate Plain(ts: seq<Token>) {
    ts == [] || (ts[0].Word? && Plain(ts[1..])) || (IsArrow(ts[0]) && |ts| > 1 && ts[1].Word? && Plain(ts[2..]))
  }

  /** The words that are not files of redirections. */
  function Names(ts: seq<Token>): seq<string>
    requires Plain(ts)
  {
    if ts == [] then [] else if ts[0].Word? then [ts[0].text] + Names(ts[1..]) else Names(ts[2..])
  }

  /** The redirections. */
  function Files(ts: seq<Token>): seq<(string, Direction)>
    requires Plain(ts)
  {
    if ts == [] then []
    else if ts[0].Word? then Files(ts[1..])
    else [(ts[1].text, Direct(ts[0]))] + Files(ts[2..])
  }

  /** A command inside redirections, of which the last is outermost. */
  function Wrap(c: Tree, fs: seq<(string, Direction)>): Tree {
    if fs == [] then c else Redir(Wrap(c, fs[..|fs| - 1]), fs[|fs| - 1].0, fs[|fs| - 1].1)
  }

  /** command ::= words and redirections, fewer than MAXARGS words */
  predicate DerivesSimple(ts: seq<Token>, t: Tree) {
    Plain(ts) && |Names(ts)| < MAXARGS && t == Wrap(Exec(Names(ts)), Files(ts))
  }

  /** Redirections round c. */
  predicate DerivesRedirs(c: Tree, ts: seq<Token>, t: Tree) {
    Plain(ts) && Names(ts) == [] && t == Wrap(c, Files(ts))
  }

  /** ... or '(' line ')' redirections, closed at token i */
  ghost predicate DerivesBlock(ts: seq<Token>, t: Tree, i: nat, c: Tree)
    decreases |ts|, 0
  {
    && 0 < i < |ts| && ts[0] == Sym('(') && ts[i] == Sym(')')
    && DerivesLine(ts[1..i], c) && DerivesRedirs(c, ts[i + 1..], t)
  }

  ghost predicate DerivesExec(ts: seq<Token>, t: Tree)
    decreases |ts|, 1
  {
    DerivesSimple(ts, t) || exists i: nat, c :: DerivesBlock(ts, t, i, c)
  }

  /** pipe ::= command | command '|' pipe, with the '|' at token i */
  ghost predicate DerivesPiped(ts: seq<Token>, t: Tree, i: nat)
    decreases |ts|, 0
  {
    t.Pipe? && i < |ts| && ts[i] == Sym('|') && DerivesExec(ts[..i], t.left) && DerivesPipe(ts[i + 1..], t.right)
  }

  ghost predicate DerivesPipe(ts: seq<Token>, t: Tree)
    decreases |ts|, 2
  {
    DerivesExec(ts, t) || exists i: nat :: DerivesPiped(ts, t, i)
  }

  /** part ::= pipe | part '&' */
  ghost predicate DerivesBacks(ts: seq<Token>, t: Tree)
    decreases |ts|, 3
  {
    || DerivesPipe(ts, t)
    || (t.Back? && ts != [] && ts[|ts| - 1] == Sym('&') && DerivesBacks(ts[..|ts| - 1], t.cmd))
  }

  /** line ::= part | part ';' line, with the ';' at token i */
  ghost predicate DerivesList(ts: seq<Token>, t: Tree, i: nat)
    decreases |ts|, 0
  {
    t.List? && i < |ts| && ts[i] == Sym(';') && DerivesBacks(ts[..i], t.left) && DerivesLine(ts[i + 1..], t.right)
  }

  ghost predicate DerivesLine(ts: seq<Token>, t: Tree)
    decreases |ts|, 4
  {
    DerivesBacks(ts, t) || exists i: nat :: DerivesList(ts, t, i)
  }

  // ----- the parser reads every sentence -----

  predicate AfterExec(ts: seq<Token>) { ts == [] || StartsStop(ts) }

  predicate AfterPipe(ts: seq<Token>) { AfterExec(ts) && !Starts(ts, '|') }

  predicate AfterBacks(ts: seq<Token>) { AfterPipe(ts) && !Starts(ts, '&') }

  predicate AfterLine(ts: seq<Token>) { AfterBacks(ts) && !Starts(ts, ';') }

  lemma {:induction false} WrapMore(c: Tree, fs: seq<(string, Direction)>, gs: seq<(string, Direction)>)
    ensures Wrap(Wrap(c, fs), gs) == Wrap(c, fs + gs)
    decreases |gs|
  {
    if gs == [] {
      assert fs + gs == fs;
    } else {
      WrapMore(c, fs, gs[..|gs| - 1]);
      assert (fs + gs)[..|fs + gs| - 1] == fs + gs[..|gs| - 1];
    }
  }

  lemma {:induction false} WrapWord(argv: seq<string>, fs: seq<(string, Direction)>, w: string)
    ensures Count(Wrap(Exec(argv), fs)) == |argv|
    ensures AddWord(Wrap(Exec(argv), fs), w) == Wrap(Exec(argv + [w]), fs)
    decreases |fs|
  {
    if fs != [] {
      WrapWord(argv, fs[..|fs| - 1], w);
    }
  }

  lemma {:induction false} RedirsRead(c: Tree, ts: seq<Token>, rest: seq<Token>)
    requires Plain(ts) && Names(ts) == [] && !StartsRedir(rest)
    ensures Redirs(c, ts + rest) == Some(Wrap(c, Files(ts)), rest)
    decreases |ts|
  {
    if ts == [] {
      assert ts + rest == rest;
    } else {
      var f := (ts[1].text, Direct(ts[0]));
      assert (ts + rest)[2..] == ts[2..] + rest;
      RedirsRead(Redir(c, f.0, f.1), ts[2..], rest);
      assert Wrap(c, [f]) == Redir(c, f.0, f.1);
      WrapMore(c, [f], Files(ts[2..]));
    }
  }

  lemma WordStep(argv: seq<string>, fs: seq<(string, Direction)>, ts: seq<Token>)
    requires ts != [] && ts[0].Word?
    ensures RedirsArgs(Wrap(Exec(argv), fs), ts)
         == if |argv| + 1 >= MAXARGS then None else RedirsArgs(Wrap(Exec(argv + [ts[0].text]), fs), ts[1..])
  {
    WrapWord(argv, fs, ts[0].text);
  }

  lemma ArrowStep(c: Tree, fs: seq<(string, Direction)>, ts: seq<Token>)
    requires |ts| > 1 && IsArrow(ts[0]) && ts[1].Word?
    ensures RedirsArgs(Wrap(c, fs), ts) == RedirsArgs(Wrap(c, fs + [(ts[1].text, Direct(ts[0]))]), ts[2..])
  {
    var f := (ts[1].text, Direct(ts[0]));
    assert (fs + [f])[..|fs|] == fs;
  }

  /** The loops of parseexec, after the words argv and the redirections fs, read i tokens. */
  ghost predicate SimpleTo(argv: seq<string>, fs: seq<(string, Direction)>, ts: seq<Token>, i: nat) {
    && i <= |ts| && Plain(ts[..i]) && |argv| + |Names(ts[..i])| < MAXARGS
    && RedirsArgs(Wrap(Exec(argv), fs), ts)
    == Some(Wrap(Exec(argv + Names(ts[..i])), fs + Files(ts[..i])), ts[i..])
  }

  lemma SimpleStop(argv: seq<string>, fs: seq<(string, Direction)>, ts: seq<Token>)
    requires AfterExec(ts) && |argv| < MAXARGS
    ensures SimpleTo(argv, fs, ts, 0)
  {
    assert argv + Names(ts[..0]) == argv && fs + Files(ts[..0]) == fs && ts[0..] == ts;
  }

  lemma FirstWord(ts: seq<Token>, i: nat)
    requires 0 < i <= |ts| && ts[0].Word?
    ensures ts[1..][..i - 1] == ts[..i][1..] && ts[1..][i - 1..] == ts[i..]
    ensures Plain(ts[..i]) <==> Plain(ts[1..][..i - 1])
    ensures Plain(ts[..i]) ==> Names(ts[..i]) == [ts[0].text] + Names(ts[1..][..i - 1])
    ensures Plain(ts[..i]) ==> Files(ts[..i]) == Files(ts[1..][..i - 1])
  {
    assert ts[1..][..i - 1] == ts[..i][1..];
  }

  lemma FirstArrow(ts: seq<Token>, i: nat)
    requires 1 < i <= |ts| && IsArrow(ts[0]) && ts[1].Word?
    ensures ts[2..][..i - 2] == ts[..i][2..] && ts[2..][i - 2..] == ts[i..]
    ensures Plain(ts[..i]) <==> Plain(ts[2..][..i - 2])
    ensures Plain(ts[..i]) ==> Names(ts[..i]) == Names(ts[2..][..i - 2])
    ensures Plain(ts[..i]) ==> Files(ts[..i]) == [(ts[1].text, Direct(ts[0]))] + Files(ts[2..][..i - 2])
  {
    assert ts[2..][..i - 2] == ts[..i][2..];
  }

  lemma SimpleWord(argv: seq<string>, fs: seq<(string, Direction)>, ts: seq<Token>, i: nat)
    requires 0 < i <= |ts| && ts[0].Word? && SimpleTo(argv + [ts[0].text], fs, ts[1..], i - 1)
    ensures SimpleTo(argv, fs, ts, i)
  {
    FirstWord(ts, i);
    WordStep(argv, fs, ts);
    assert argv + [ts[0].text] + Names(ts[1..][..i - 1]) == argv + Names(ts[..i]);
  }

  lemma SimpleArrow(argv: seq<string>, fs: seq<(string, Direction)>, ts: seq<Token>, i: nat)
    requires 1 < i <= |ts| && IsArrow(ts[0]) && ts[1].Word?
    requires SimpleTo(argv, fs + [(ts[1].text, Direct(ts[0]))], ts[2..], i - 2)
    ensures SimpleTo(argv, fs, ts, i)
  {
    FirstArrow(ts, i);
    ArrowStep(Exec(argv), fs, ts);
    var f := (ts[1].text, Direct(ts[0]));
    assert fs + [f] + Files(ts[2..][..i - 2]) == fs + Files(ts[..i]);
  }

  lemma {:induction false} SimpleRead(argv: seq<string>, fs: seq<(string, Direction)>, ts: seq<Token>, i: nat)
    requires i <= |ts| && Plain(ts[..i]) && |argv| + |Names(ts[..i])| < MAXARGS && AfterExec(ts[i..])
    ensures SimpleTo(argv, fs, ts, i)
    decreases i
  {
    if i == 0 {
      assert ts[0..] == ts;
      SimpleStop(argv, fs, ts);
    } else if ts[0].Word? {
      FirstWord(ts, i);
      SimpleRead(argv + [ts[0].text], fs, ts[1..], i - 1);
      SimpleWord(argv, fs, ts, i);
    } else {
      assert ts[..i][0] == ts[0] && ts[..i][1] == ts[1];
      FirstArrow(ts, i);
      SimpleRead(argv, fs + [(ts[1].text, Direct(ts[0]))], ts[2..], i - 2);
      SimpleArrow(argv, fs, ts, i);
    }
  }

  lemma {:induction false} BlockRead(ts: seq<Token>, t: Tree, i: nat, c: Tree, rest: seq<Token>)
    requires DerivesBlock(ts, t, i, c) && AfterExec(rest)
    ensures ExecOf(ts + rest) == Some(t, rest)
    decreases |ts|, 0
  {
    var after := [Sym(')')] + (ts[i + 1..] + rest);
    LineRead(ts[1..i], c, after);
    assert (ts + rest)[1..] == ts[1..i] + after;
    RedirsRead(c, ts[i + 1..], rest);
    assert after[1..] == ts[i + 1..] + rest;
  }

  lemma SimpleExec(ts: seq<Token>, t: Tree, rest: seq<Token>)
    requires DerivesSimple(ts, t) && AfterExec(rest)
    ensures ExecOf(ts + rest) == Some(t, rest)
  {
    var all := ts + rest;
    assert all[..|ts|] == ts && all[|ts|..] == rest;
    SimpleRead([], [], all, |ts|);
    assert [] + Names(ts) == Names(ts) && [] + Files(ts) == Files(ts);
    assert !Starts(all, '(');
  }

  /** A command is read, and nothing more. */
  lemma {:induction false} ExecRead(ts: seq<Token>, t: Tree, rest: seq<Token>)
    requires DerivesExec(ts, t) && AfterExec(rest)
    ensures ExecOf(ts + rest) == Some(t, rest)
    decreases |ts|, 1
  {
    if DerivesSimple(ts, t) {
      SimpleExec(ts, t, rest);
    } else {
      var i: nat, c :| DerivesBlock(ts, t, i, c);
      BlockRead(ts, t, i, c, rest);
    }
  }

  lemma {:induction false} PipedRead(ts: seq<Token>, t: Tree, i: nat, rest: seq<Token>)
    requires DerivesPiped(ts, t, i) && AfterPipe(rest)
    ensures PipeOf(ts + rest) == Some(t, rest)
    decreases |ts|, 0
  {
    var after := [Sym('|')] + (ts[i + 1..] + rest);
    ExecRead(ts[..i], t.left, after);
    PipeRead(ts[i + 1..], t.right, rest);
    assert ts + rest == ts[..i] + after && after[1..] == ts[i + 1..] + rest;
  }

  lemma {:induction false} PipeRead(ts: seq<Token>, t: Tree, rest: seq<Token>)
    requires DerivesPipe(ts, t) && AfterPipe(rest)
    ensures PipeOf(ts + rest) == Some(t, rest)
    decreases |ts|, 2
  {
    if DerivesExec(ts, t) {
      ExecRead(ts, t, rest);
    } else {
      var i: nat :| DerivesPiped(ts, t, i);
      PipedRead(ts, t, i, rest);
    }
  }

  /** What parseline has after its loop. */
  function PipeBacks(ts: seq<Token>): Parse {
    match PipeOf(ts)
    case None => None
    case Some(c, rest) => Backs(c, rest)
  }

  lemma {:induction false} BacksRead(ts: seq<Token>, t: Tree, rest: seq<Token>)
    requires DerivesBacks(ts, t) && AfterPipe(rest)
    ensures PipeBacks(ts + rest) == Backs(t, rest)
    decreases |ts|, 3
  {
    if DerivesPipe(ts, t) {
      PipeRead(ts, t, rest);
    } else {
      var n, after := |ts| - 1, [Sym('&')] + rest;
      BacksRead(ts[..n], t.cmd, after);
      assert ts + rest == ts[..n] + after && after[1..] == rest;
    }
  }

  lemma {:induction false} ListRead(ts: seq<Token>, t: Tree, i: nat, rest: seq<Token>)
    requires DerivesList(ts, t, i) && AfterLine(rest)
    ensures LineOf(ts + rest) == Some(t, rest)
    decreases |ts|, 0
  {
    var after := [Sym(';')] + (ts[i + 1..] + rest);
    BacksRead(ts[..i], t.left, after);
    LineRead(ts[i + 1..], t.right, rest);
    assert ts + rest == ts[..i] + after && after[1..] == ts[i + 1..] + rest;
  }

  lemma {:induction false} LineRead(ts: seq<Token>, t: Tree, rest: seq<Token>)
    requires DerivesLine(ts, t) && AfterLine(rest)
    ensures LineOf(ts + rest) == Some(t, rest)
    decreases |ts|, 4
  {
    if DerivesBacks(ts, t) {
      BacksRead(ts, t, rest);
    } else {
      var i: nat :| DerivesList(ts, t, i);
      ListRead(ts, t, i, rest);
    }
  }

  // ----- and nothing else -----

  lemma {:induction false} RedirsFound(c: Tree, ts: seq<Token>) returns (i: nat)
    requires Redirs(c, ts).Some?
    ensures i <= |ts| && Redirs(c, ts).rest == ts[i..] && DerivesRedirs(c, ts[..i], Redirs(c, ts).tree)
    decreases |ts|
  {
    if !StartsRedir(ts) {
      i := 0;
    } else {
      var f := (ts[1].text, Direct(ts[0]));
      var k := RedirsFound(Redir(c, f.0, f.1), ts[2..]);
      i := k + 2;
      assert ts[..i][2..] == ts[2..][..k] && ts[2..][k..] == ts[i..];
      assert Wrap(c, [f]) == Redir(c, f.0, f.1);
      WrapMore(c, [f], Files(ts[2..][..k]));
    }
  }

  lemma {:induction false} SimpleFound(argv: seq<string>, fs: seq<(string, Direction)>, ts: seq<Token>)
    returns (i: nat)
    requires |argv| < MAXARGS && RedirsArgs(Wrap(Exec(argv), fs), ts).Some?
    ensures SimpleTo(argv, fs, ts, i)
    decreases |ts|
  {
    if AfterExec(ts) {
      i := 0;
      SimpleStop(argv, fs, ts);
    } else if ts[0].Word? {
      WordStep(argv, fs, ts);
      var k := SimpleFound(argv + [ts[0].text], fs, ts[1..]);
      i := k + 1;
      SimpleWord(argv, fs, ts, i);
    } else {
      ArrowStep(Exec(argv), fs, ts);
      var k := SimpleFound(argv, fs + [(ts[1].text, Direct(ts[0]))], ts[2..]);
      i := k + 2;
      SimpleArrow(argv, fs, ts, i);
    }
  }

  lemma {:induction false} ExecFound(ts: seq<Token>) returns (i: nat)
    requires ExecOf(ts).Some?
    ensures i <= |ts| && ExecOf(ts).rest == ts[i..] && DerivesExec(ts[..i], ExecOf(ts).tree)
    decreases |ts|, 1
  {
    if Starts(ts, '(') {
      var c := LineOf(ts[1..]).tree;
      var k := LineFound(ts[1..]);
      var after := ts[1..][k..][1..];
      var m := RedirsFound(c, after);
      i := k + 2 + m;
      assert after == ts[k + 2..] && after[m..] == ts[i..];
      assert ts[..i][1..k + 1] == ts[1..][..k] && ts[..i][k + 2..] == after[..m];
      assert DerivesBlock(ts[..i], ExecOf(ts).tree, k + 1, c);
    } else {
      i := SimpleFound([], [], ts);
      assert [] + Names(ts[..i]) == Names(ts[..i]) && [] + Files(ts[..i]) == Files(ts[..i]);
    }
  }

  lemma {:induction false} PipeFound(ts: seq<Token>) returns (i: nat)
    requires PipeOf(ts).Some?
    ensures i <= |ts| && PipeOf(ts).rest == ts[i..] && DerivesPipe(ts[..i], PipeOf(ts).tree)
    decreases |ts|, 2
  {
    i := ExecFound(ts);
    if Starts(ts[i..], '|') {
      var k := PipeFound(ts[i + 1..]);
      var n := i + 1 + k;
      assert ts[i..][1..] == ts[i + 1..] && ts[i + 1..][k..] == ts[n..];
      assert ts[..n][..i] == ts[..i] && ts[..n][i + 1..] == ts[i + 1..][..k] && ts[..n][i] == Sym('|');
      assert DerivesPiped(ts[..n], PipeOf(ts).tree, i);
      i := n;
    }
  }

  lemma {:induction false} BacksFound(c: Tree, ts: seq<Token>, i: nat) returns (k: nat)
    requires i <= |ts| && DerivesBacks(ts[..i], c)
    ensures i <= k <= |ts| && Backs(c, ts[i..]).rest == ts[k..] && DerivesBacks(ts[..k], Backs(c, ts[i..]).tree)
    decreases |ts| - i
  {
    k := i;
    if Starts(ts[i..], '&') {
      assert ts[..i + 1][..i] == ts[..i] && ts[i..][1..] == ts[i + 1..];
      k := BacksFound(Back(c), ts, i + 1);
    }
  }

  lemma {:induction false} LineFound(ts: seq<Token>) returns (i: nat)
    requires LineOf(ts).Some?
    ensures i <= |ts| && LineOf(ts).rest == ts[i..] && DerivesLine(ts[..i], LineOf(ts).tree)
    decreases |ts|, 4
  {
    i := PipeFound(ts);
    i := BacksFound(PipeOf(ts).tree, ts, i);
    if Starts(ts[i..], ';') {
      var k := LineFound(ts[i + 1..]);
      var n := i + 1 + k;
      assert ts[i..][1..] == ts[i + 1..] && ts[i + 1..][k..] == ts[n..];
      assert ts[..n][..i] == ts[..i] && ts[..n][i + 1..] == ts[i + 1..][..k] && ts[..n][i] == Sym(';');
      assert DerivesList(ts[..n], LineOf(ts).tree, i);
      i := n;
    }
  }

  /** The parser accepts exactly the sentences of the grammar, each with its one tree. */
  lemma ParsesIff(ts: seq<Token>, t: Tree)
    ensures Command(ts) == Some(t, []) <==> DerivesLine(ts, t)
  {
    if DerivesLine(ts, t) {
      LineRead(ts, t, []);
      assert ts + [] == ts;
    }
    if Command(ts) == Some(t, []) {
      var i := LineFound(ts);
      assert i == |ts| && ts[..i] == ts;
    }
  }

  // ----- the canonical printing of a tree -----

  predicate Printable(t: Tree) {
    match t
    case Exec(argv) => |argv| < MAXARGS
    case Redir(c, _, _) => Printable(c)
    case Pipe(l, r) => Printable(l) && Printable(r)
    case List(l, r) => Printable(l) && Printable(r)
    case Back(c) => Printable(c)
  }

  function Words(argv: seq<string>): seq<Token> {
    if argv == [] then [] else [Word(argv[0])] + Words(argv[1..])
  }

  function Arrow(d: Direction): Token { if d == Input then Sym('<') else Sym('>') }

  /** As the operand of '|'. */
  function ShowExec(t: Tree): seq<Token>
    decreases t, if t.Exec? || t.Redir? then 0 else 4
  {
    match t
    case Exec(argv) => Words(argv)
    case Redir(c, f, d) => ShowExec(c) + [Arrow(d), Word(f)]
    case _ => [Sym('(')] + ShowLine(t) + [Sym(')')]
  }

  function ShowPipe(t: Tree): seq<Token>
    decreases t, if t.Back? || t.List? then 5 else 1
  {
    match t
    case Pipe(l, r) => ShowExec(l) + [Sym('|')] + ShowPipe(r)
    case _ => ShowExec(t)
  }

  function ShowBacks(t: Tree): seq<Token>
    decreases t, if t.List? then 6 else 2
  {
    match t
    case Back(c) => ShowBacks(c) + [Sym('&')]
    case _ => ShowPipe(t)
  }

  function ShowLine(t: Tree): seq<Token>
    decreases t, 3
  {
    match t
    case List(l, r) => ShowBacks(l) + [Sym(';')] + ShowLine(r)
    case _ => ShowBacks(t)
  }

  // ----- printing and parsing again -----

  lemma {:induction false} NamesShown(argv: seq<string>)
    ensures Plain(Words(argv)) && Names(Words(argv)) == argv && Files(Words(argv)) == []
  {
    if argv != [] {
      NamesShown(argv[1..]);
      assert Words(argv)[1..] == Words(argv[1..]);
    }
  }

  /** One redirection more at the end. */
  lemma {:induction false} PlainMore(ts: seq<Token>, d: Direction, f: string)
    requires Plain(ts)
    ensures Plain(ts + [Arrow(d), Word(f)]) && Names(ts + [Arrow(d), Word(f)]) == Names(ts)
    ensures Files(ts + [Arrow(d), Word(f)]) == Files(ts) + [(f, d)]
    decreases |ts|
  {
    var more := [Arrow(d), Word(f)];
    if ts == [] {
      assert ts + more == more && more[2..] == [];
    } else if ts[0].Word? {
      PlainMore(ts[1..], d, f);
      assert (ts + more)[1..] == ts[1..] + more;
    } else {
      PlainMore(ts[2..], d, f);
      assert (ts + more)[2..] == ts[2..] + more;
    }
  }

  lemma BlockMore(ts: seq<Token>, t: Tree, i: nat, c: Tree, d: Direction, f: string)
    requires DerivesBlock(ts, t, i, c)
    ensures DerivesBlock(ts + [Arrow(d), Word(f)], Redir(t, f, d), i, c)
  {
    var all := ts + [Arrow(d), Word(f)];
    PlainMore(ts[i + 1..], d, f);
    assert all[1..i] == ts[1..i] && all[i + 1..] == ts[i + 1..] + [Arrow(d), Word(f)];
  }

  lemma ExecMore(ts: seq<Token>, t: Tree, d: Direction, f: string)
    requires DerivesExec(ts, t)
    ensures DerivesExec(ts + [Arrow(d), Word(f)], Redir(t, f, d))
  {
    if DerivesSimple(ts, t) {
      PlainMore(ts, d, f);
    } else {
      var i: nat, c :| DerivesBlock(ts, t, i, c);
      BlockMore(ts, t, i, c, d, f);
    }
  }

  lemma {:induction false} ExecShown(t: Tree)
    requires Printable(t)
    ensures DerivesExec(ShowExec(t), t)
    decreases t, if t.Exec? || t.Redir? then 0 else 4
  {
    match t
    case Exec(argv) => NamesShown(argv);
    case Redir(c, f, d) =>
      ExecShown(c);
      ExecMore(ShowExec(c), c, d, f);
    case _ =>
      LineShown(t);
      var ts, i := ShowExec(t), |ShowLine(t)| + 1;
      assert ts[1..i] == ShowLine(t) && ts[i + 1..] == [];
      assert DerivesBlock(ts, t, i, t);
  }

  lemma {:induction false} PipeShown(t: Tree)
    requires Printable(t)
    ensures DerivesPipe(ShowPipe(t), t)
    decreases t, if t.Back? || t.List? then 5 else 1
  {
    if t.Pipe? {
      ExecShown(t.left);
      PipeShown(t.right);
      var ts, i := ShowPipe(t), |ShowExec(t.left)|;
      assert ts[..i] == ShowExec(t.left) && ts[i + 1..] == ShowPipe(t.right) && ts[i] == Sym('|');
      assert DerivesPiped(ts, t, i);
    } else {
      ExecShown(t);
    }
  }

  lemma {:induction false} BacksShown(t: Tree)
    requires Printable(t)
    ensures DerivesBacks(ShowBacks(t), t)
    decreases t, if t.List? then 6 else 2
  {
    if t.Back? {
      BacksShown(t.cmd);
      assert ShowBacks(t)[..|ShowBacks(t)| - 1] == ShowBacks(t.cmd);
    } else {
      PipeShown(t);
    }
  }

  lemma {:induction false} LineShown(t: Tree)
    requires Printable(t)
    ensures DerivesLine(ShowLine(t), t)
    decreases t, 3
  {
    if t.List? {
      BacksShown(t.left);
      LineShown(t.right);
      var ts, i := ShowLine(t), |ShowBacks(t.left)|;
      assert ts[..i] == ShowBacks(t.left) && ts[i + 1..] == ShowLine(t.right) && ts[i] == Sym(';');
      assert DerivesList(ts, t, i);
    } else {
      BacksShown(t);
    }
  }

  /** What stands where a command may stand in a pipe is read back, and nothing more. */
  lemma ExecRoundTrip(t: Tree, rest: seq<Token>)
    requires Printable(t) && AfterExec(rest)
    ensures ExecOf(ShowExec(t) + rest) == Some(t, rest)
  {
    ExecShown(t);
    ExecRead(ShowExec(t), t, rest);
  }

  /** Parsing the printing of a tree gives the tree. */
  lemma RoundTrip(t: Tree)
    requires Printable(t)
    ensures Command(ShowLine(t)) == Some(t, [])
  {
    LineShown(t);
    ParsesIff(ShowLine(t), t);
  }
}

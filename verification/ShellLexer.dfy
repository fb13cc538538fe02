/** gettoken and peek of sh.c, over the characters before the terminating NUL. */
module ShellLexer {
  import opened ShellGrammar

  predicate IsSpace(c: char) { c == ' ' || c == '\t' || c == '\r' || c == '\n' || c == '\U{0B}' }

  predicate IsSymbol(c: char) {
    c == '<' || c == '|' || c == '>' || c == '&' || c == ';' || c == '(' || c == ')'
  }

  predicate InWord(c: char) { !IsSpace(c) && !IsSymbol(c) }

  /** The first position from i on that is not white space. */
  function Skip(s: string, i: nat): (j: nat)
    requires i <= |s|
    ensures i <= j <= |s| && (j < |s| ==> !IsSpace(s[j])) && forall k :: i <= k < j ==> IsSpace(s[k])
    decreases |s| - i
  {
    if i < |s| && IsSpace(s[i]) then Skip(s, i + 1) else i
  }

  /** The end of the word at i. */
  function WordEnd(s: string, i: nat): (j: nat)
    requires i <= |s|
    ensures i <= j <= |s| && (j < |s| ==> !InWord(s[j])) && forall k :: i <= k < j ==> InWord(s[k])
    decreases |s| - i
  {
    if i < |s| && InWord(s[i]) then WordEnd(s, i + 1) else i
  }

  /** The end of the token at i, where there is one. */
  function TokenEnd(s: string, i: nat): (j: nat)
    requires i < |s| && !IsSpace(s[i])
    ensures i < j <= |s|
  {
    if s[i] == '>' && i + 1 < |s| && s[i + 1] == '>' then i + 2
    else if IsSymbol(s[i]) then i + 1
    else WordEnd(s, i + 1)
  }

  function TokenAt(s: string, i: nat): Token
    requires i < |s| && !IsSpace(s[i])
  {
    if s[i] == '>' && i + 1 < |s| && s[i + 1] == '>' then Sym('+')
    else if IsSymbol(s[i]) then Sym(s[i])
    else Word(s[i..TokenEnd(s, i)])
  }

  /** The tokens of the text from i on. */
  function Lex(s: string, i: nat): seq<Token>
    requires i <= |s|
    decreases |s| - i
  {
    var q := Skip(s, i);
    if q == |s| then [] else [TokenAt(s, q)] + Lex(s, TokenEnd(s, q))
  }

  lemma LexSkip(s: string, i: nat)
    requires i <= |s|
    ensures Lex(s, Skip(s, i)) == Lex(s, i)
  {
    SkipTwice(s, i);
  }

  lemma {:induction false} SkipTwice(s: string, i: nat)
    requires i <= |s|
    ensures Skip(s, Skip(s, i)) == Skip(s, i)
    decreases |s| - i
  {
    if i < |s| && IsSpace(s[i]) {
      SkipTwice(s, i + 1);
    }
  }

  // ----- the two functions of the source -----

  method SkipSpace(s: string, i: nat) returns (j: nat)
    requires i <= |s|
    ensures j == Skip(s, i) && Lex(s, j) == Lex(s, i)
  {
    j := i;
    while j < |s| && IsSpace(s[j])
      invariant i <= j <= |s| && Skip(s, j) == Skip(s, i)
    {
      j := j + 1;
    }
    LexSkip(s, i);
  }

  /** peek: is the first character of the next token one of toks?  Only symbols are asked for. */
  method Peek(s: string, i: nat, toks: string) returns (b: bool, j: nat)
    requires i <= |s| && forall k :: 0 <= k < |toks| ==> IsSymbol(toks[k])
    ensures j <= |s| && Lex(s, j) == Lex(s, i) && j == Skip(s, i)
    ensures b <==> Lex(s, i) != [] && Lex(s, i)[0].Sym? && FirstChar(Lex(s, i)[0].c) in toks
  {
    j := SkipSpace(s, i);
    b := j < |s| && s[j] in toks;
  }

  function FirstChar(c: char): char { if c == '+' then '>' else c }

  /** gettoken: the kind of the token, with 'a' for a word and NUL at the end; its first position and
      its end; and where to go on. */
  method GetToken(s: string, i: nat) returns (ret: char, q: nat, eq: nat, j: nat)
    requires i <= |s|
    ensures q <= eq <= j <= |s|
    ensures ret == '\0' <==> Lex(s, i) == []
    ensures Lex(s, j) == if ret == '\0' then [] else Lex(s, i)[1..]
    ensures ret == 'a' <==> Lex(s, i) != [] && Lex(s, i)[0].Word?
    ensures ret == 'a' ==> WordSpan(s, q, eq) && Lex(s, i)[0] == Word(s[q..eq])
    ensures ret != 'a' && ret != '\0' ==> Lex(s, i)[0] == Sym(ret)
  {
    q := SkipSpace(s, i);
    eq := q;
    if q == |s| {
      return '\0', q, eq, q;
    }
    ret := s[q];
    if IsSymbol(s[q]) {
      eq := q + 1;
      if s[q] == '>' && eq < |s| && s[eq] == '>' {
        ret := '+';
        eq := eq + 1;
      }
    } else {
      ret := 'a';
      while eq < |s| && !IsSpace(s[eq]) && !IsSymbol(s[eq])
        invariant q <= eq <= |s| && WordEnd(s, eq) == WordEnd(s, q) && forall k :: q <= k < eq ==> InWord(s[k])
      {
        eq := eq + 1;
      }
    }
    j := SkipSpace(s, eq);
  }

  /** A whole word of the text. */
  predicate WordSpan(s: string, q: nat, eq: nat) {
    && q < eq <= |s| && (forall k :: q <= k < eq ==> InWord(s[k]))
    && (eq < |s| ==> !InWord(s[eq]))
  }

  // ----- writing tokens out -----

  predicate Spellable(t: Token) {
    match t
    case Word(w) => w != "" && forall k :: 0 <= k < |w| ==> InWord(w[k])
    case Sym(c) => c == '+' || IsSymbol(c)
  }

  function Spell(t: Token): string {
    match t
    case Word(w) => w
    case Sym(c) => if c == '+' then ">>" else [c]
  }

  /** Each token followed by a blank. */
  function Render(ts: seq<Token>): string {
    if ts == [] then "" else Spell(ts[0]) + " " + Render(ts[1..])
  }

  /** The token t is spelled at i, and a blank before e. */
  predicate SpelledAt(s: string, i: nat, t: Token, e: nat) {
    i + |Spell(t)| + 1 == e <= |s| && s[i..e - 1] == Spell(t) && s[e - 1] == ' '
  }

  lemma RenderFirst(s: string, i: nat, ts: seq<Token>) returns (e: nat)
    requires i <= |s| && s[i..] == Render(ts) && ts != []
    ensures SpelledAt(s, i, ts[0], e) && s[e..] == Render(ts[1..])
  {
    var w := Spell(ts[0]);
    var r := w + " " + Render(ts[1..]);
    e := i + |w| + 1;
    assert s[i..e - 1] == r[..|w|];
    assert s[e - 1] == r[|w|];
    assert s[e..] == r[|w| + 1..];
  }

  lemma LexFirst(s: string, i: nat, ts: seq<Token>, e: nat)
    requires ts != [] && Spellable(ts[0]) && SpelledAt(s, i, ts[0], e) && Lex(s, e) == ts[1..]
    ensures Lex(s, i) == ts
  {
    SpelledToken(s, i, ts[0], e);
    LexBlank(s, e - 1);
    assert ts == [ts[0]] + ts[1..];
  }

  /** Text written out from i on is read back. */
  lemma {:induction false} RenderLex(s: string, i: nat, ts: seq<Token>)
    requires i <= |s| && s[i..] == Render(ts) && AllSpellable(ts)
    ensures Lex(s, i) == ts
    decreases |ts|
  {
    if ts != [] {
      var e := RenderFirst(s, i, ts);
      RenderLex(s, e, ts[1..]);
      LexFirst(s, i, ts, e);
    }
  }

  predicate AllSpellable(ts: seq<Token>) { forall k :: 0 <= k < |ts| ==> Spellable(ts[k]) }

  lemma LexBlank(s: string, e: nat)
    requires e < |s| && IsSpace(s[e])
    ensures Lex(s, e) == Lex(s, e + 1)
  {
    assert Skip(s, e) == Skip(s, e + 1);
  }

  /** A token spelled at i and followed by a blank is that token. */
  lemma SpelledToken(s: string, i: nat, t: Token, e: nat)
    requires Spellable(t) && SpelledAt(s, i, t, e)
    ensures i < |s| && !IsSpace(s[i]) && TokenAt(s, i) == t && TokenEnd(s, i) == e - 1
  {
    var w := Spell(t);
    forall k | 0 <= k < |w|
      ensures s[i + k] == w[k]
    {
      assert s[i..e - 1][k] == w[k];
    }
    if t.Word? {
      WordEnds(s, i + 1, e - 1);
    }
  }

  lemma {:induction false} WordEnds(s: string, i: nat, e: nat)
    requires i <= e < |s| && !InWord(s[e]) && forall k :: i <= k < e ==> InWord(s[k])
    ensures WordEnd(s, i) == e
    decreases e - i
  {
    if i < e {
      WordEnds(s, i + 1, e);
    }
  }
}

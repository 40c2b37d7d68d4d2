/** The tokenizer of update expressions (src/expressions/update_expression.cpp). */
module UpdateTokens {
  import opened Bytes
  import opened Decimals
  import opened UpdateGrammar

  const MAX_TOKENS: nat := 8192
  const MAX_INDEX: nat := 0xFFFF_FFFF_FFFF_FFFF

  predicate IsSpace(c: Byte) {
    9 <= c <= 13 || c == 32
  }

  predicate IdentStart(c: Byte) {
    65 <= c <= 90 || 97 <= c <= 122 || c == 95
  }

  predicate IdentChar(c: Byte) {
    IdentStart(c) || Digit(c)
  }

  predicate Spaces(s: ByteString) {
    forall i | 0 <= i < |s| :: IsSpace(s[i])
  }

  predicate IdentChars(s: ByteString) {
    forall i | 0 <= i < |s| :: IdentChar(s[i])
  }

  predicate Word(s: ByteString) {
    s != [] && IdentStart(s[0]) && IdentChars(s)
  }

  function KeywordOf(word: ByteString): (r: Option<Section>) {
    var up := Upper(word);
    if up == [83, 69, 84] then Some(SetSection)
    else if up == [82, 69, 77, 79, 86, 69] then Some(RemoveSection)
    else if up == [65, 68, 68] then Some(AddSection)
    else if up == [68, 69, 76, 69, 84, 69] then Some(DeleteSection)
    else None
  }

  // ---- Which words are special ---------------------------------------------------------------------

  /** The word is the text, capital letters standing for either case. */
  ghost predicate SpelledOut(word: ByteString, text: string) {
    && |word| == |text|
    && forall i | 0 <= i < |word| ::
         || word[i] == text[i] as int
         || ('A' <= text[i] <= 'Z' && word[i] == text[i] as int + 32)
  }

  lemma UpperIff(word: ByteString, upper: ByteString, text: string)
    requires |upper| == |text|
    requires forall i | 0 <= i < |upper| :: upper[i] == text[i] as int && ('A' <= text[i] <= 'Z' || text[i] == '_')
    ensures Upper(word) == upper <==> SpelledOut(word, text)
  {
    if Upper(word) == upper {
      assert forall i | 0 <= i < |word| :: Upper(word)[i] == upper[i];
    }
    if SpelledOut(word, text) {
      assert forall i | 0 <= i < |word| :: Upper(word)[i] == upper[i];
    }
  }

  /** SET, REMOVE, ADD and DELETE, in any mixture of cases, open their own sections; no other word opens one. */
  lemma KeywordIff(word: ByteString)
    ensures KeywordOf(word) == Some(SetSection) <==> SpelledOut(word, "SET")
    ensures KeywordOf(word) == Some(RemoveSection) <==> SpelledOut(word, "REMOVE")
    ensures KeywordOf(word) == Some(AddSection) <==> SpelledOut(word, "ADD")
    ensures KeywordOf(word) == Some(DeleteSection) <==> SpelledOut(word, "DELETE")
  {
    hide SpelledOut;
    UpperIff(word, [83, 69, 84], "SET");
    UpperIff(word, [82, 69, 77, 79, 86, 69], "REMOVE");
    UpperIff(word, [65, 68, 68], "ADD");
    UpperIff(word, [68, 69, 76, 69, 84, 69], "DELETE");
  }

  /** The two functions, in any mixture of cases. */
  lemma FunctionIff(word: ByteString)
    ensures IsWord(Ident(word), IF_NOT_EXISTS) <==> SpelledOut(word, "IF_NOT_EXISTS")
    ensures IsWord(Ident(word), LIST_APPEND) <==> SpelledOut(word, "LIST_APPEND")
  {
    UpperIff(word, IF_NOT_EXISTS, "IF_NOT_EXISTS");
    UpperIff(word, LIST_APPEND, "LIST_APPEND");
  }

  // ---- How a token is spelled ----------------------------------------------------------------------

  /** Tokens that end where identifier characters end. */
  predicate Wordy(t: Tok) {
    t.Ident? || t.Keyword? || t.NameRef? || t.ValueRef?
  }

  predicate Bracketed(text: ByteString, index: nat) {
    && |text| >= 3 && text[0] == 91 && text[|text| - 1] == 93
    && Digits(text[1..|text| - 1]) && Nat(text[1..|text| - 1]) == index <= MAX_INDEX
  }

  /** Keywords in any mixture of cases, indexes with any number of leading zeros. */
  predicate Spells(text: ByteString, t: Tok) {
    match t
    case Ident(x) => text == x && Word(x) && KeywordOf(x) == None
    case Keyword(section) => Word(text) && KeywordOf(text) == Some(section)
    case NameRef(x) => text == x && |x| > 1 && x[0] == 35 && Word(x[1..])
    case ValueRef(x) => text == x && |x| > 1 && x[0] == 58 && Word(x[1..])
    case Op(c) => text == [c] && (c == 61 || c == 43 || c == 45)
    case LParen => text == [40]
    case RParen => text == [41]
    case Comma => text == [44]
    case Dot => text == [46]
    case IndexTok(i) => Bracketed(text, i)
    case End => false
  }

  /** A token's text and the space before it. */
  datatype Piece = Piece(gap: ByteString, text: ByteString, tok: Tok)

  /** Two words need a space between them; nothing else does. */
  predicate Spelled(pieces: seq<Piece>) {
    && (forall i | 0 <= i < |pieces| ::
        Spaces(pieces[i].gap) && pieces[i].text != [] && Spells(pieces[i].text, pieces[i].tok))
    && (forall i | 0 < i < |pieces| && Wordy(pieces[i - 1].tok) && pieces[i].gap == [] :: !IdentChar(pieces[i].text[0]))
  }

  function Text(pieces: seq<Piece>): (s: ByteString) {
    if pieces == [] then [] else pieces[0].gap + (pieces[0].text + Text(pieces[1..]))
  }

  function ToksOf(pieces: seq<Piece>): (r: seq<Tok>) {
    if pieces == [] then [End] else [pieces[0].tok] + ToksOf(pieces[1..])
  }

  // ---- How a text is read --------------------------------------------------------------------------

  function WordEnd(s: ByteString): (n: nat)
    ensures n <= |s| && IdentChars(s[..n]) && (n < |s| ==> !IdentChar(s[n]))
  {
    if s == [] || !IdentChar(s[0]) then 0 else 1 + WordEnd(s[1..])
  }

  /** The index in brackets that the text begins with. */
  function FirstIndex(s: ByteString): (r: Option<(Tok, nat)>)
    requires s != []
  {
    var n := Span(s[1..]);
    if n == 0 || n + 1 >= |s| || s[n + 1] != 93 || Nat(s[1..][..n]) > MAX_INDEX then None
    else Some((IndexTok(Nat(s[1..][..n])), n + 2))
  }

  /** The token that the text begins with, and its length. */
  function FirstToken(s: ByteString): (r: Option<(Tok, nat)>)
    requires s != []
  {
    var c := s[0];
    if c == 35 || c == 58 then
      if |s| == 1 || !IdentStart(s[1]) then None
      else
        var n := 1 + WordEnd(s[1..]);
        Some((if c == 35 then NameRef(s[..n]) else ValueRef(s[..n]), n))
    else if IdentStart(c) then
      var n := WordEnd(s);
      Some((match KeywordOf(s[..n]) case None => Ident(s[..n]) case Some(section) => Keyword(section), n))
    else if c == 61 || c == 43 || c == 45 then Some((Op(c), 1))
    else if c == 40 then Some((LParen, 1))
    else if c == 41 then Some((RParen, 1))
    else if c == 44 then Some((Comma, 1))
    else if c == 46 then Some((Dot, 1))
    else if c == 91 then FirstIndex(s)
    else None
  }

  lemma {:induction false} WordEndOf(word: ByteString, rest: ByteString)
    requires IdentChars(word) && (rest == [] || !IdentChar(rest[0]))
    ensures WordEnd(word + rest) == |word|
    decreases |word|
  {
    if word == [] {
      assert word + rest == rest;
    } else {
      WordEndOf(word[1..], rest);
      assert (word + rest)[0] == word[0] && (word + rest)[1..] == word[1..] + rest;
    }
  }

  lemma IndexReads(text: ByteString, index: nat, rest: ByteString)
    requires Bracketed(text, index)
    ensures FirstIndex(text + rest) == Some((IndexTok(index), |text|))
  {
    hide Span, Nat;
    var digits := text[1..|text| - 1];
    assert (text + rest)[1..] == digits + ([93] + rest);
    SpanOf(digits, [93] + rest);
    assert (digits + ([93] + rest))[..|digits|] == digits;
    assert (text + rest)[|digits| + 1] == 93;
  }

  /** A spelled token is read, whatever follows, as long as nothing extends it. */
  lemma TokenReads(text: ByteString, t: Tok, rest: ByteString)
    requires Spells(text, t) && (Wordy(t) && rest != [] ==> !IdentChar(rest[0]))
    ensures text != [] && FirstToken(text + rest) == Some((t, |text|))
  {
    hide WordEnd, FirstIndex, Bracketed, KeywordOf;
    var s := text + rest;
    match t
    case Ident(_) =>
      WordEndOf(text, rest);
      assert s[..|text|] == text;
    case Keyword(_) =>
      WordEndOf(text, rest);
      assert s[..|text|] == text;
    case NameRef(_) =>
      WordEndOf(text[1..], rest);
      assert s[1..] == text[1..] + rest && s[..|text|] == text;
    case ValueRef(_) =>
      WordEndOf(text[1..], rest);
      assert s[1..] == text[1..] + rest && s[..|text|] == text;
    case IndexTok(i) =>
      BracketOpens(text, i);
      IndexReads(text, i, rest);
    case _ =>
  }

  lemma BracketOpens(text: ByteString, i: nat)
    requires Bracketed(text, i)
    ensures text != [] && text[0] == 91
  {
  }

  /** Whatever is read is spelled by the text it was read from, and that text ends where it has to. */
  lemma ReadIsSpelled(s: ByteString)
    requires s != [] && FirstToken(s).Some?
    ensures var (t, n) := FirstToken(s).value;
            0 < n <= |s| && Spells(s[..n], t) && (Wordy(t) && n < |s| ==> !IdentChar(s[n]))
  {
    hide WordEnd, Span, KeywordOf, Nat;
    var c := s[0];
    if c == 35 || c == 58 {
      var n := 1 + WordEnd(s[1..]);
      FirstIdent(s[1..]);
      assert s[..n][1..] == s[1..][..n - 1];
    } else if IdentStart(c) {
      FirstIdent(s);
    } else if c == 91 {
      var n := Span(s[1..]);
      assert s[..n + 2][1..n + 1] == s[1..][..n];
    } else {
      assert s[..1] == [c];
    }
  }

  lemma FirstIdent(s: ByteString)
    requires s != [] && IdentStart(s[0])
    ensures WordEnd(s) > 0 && Word(s[..WordEnd(s)])
  {
  }

  // ---- The whole text ------------------------------------------------------------------------------

  /** The tokens of a text of which `count` tokens have been read already, and whether reading stopped short. */
  function TokensFrom(s: ByteString, count: nat): (r: (seq<Tok>, bool))
    decreases |s|
  {
    if s == [] then ([End], false)
    else if IsSpace(s[0]) then TokensFrom(s[1..], count)
    else if count > MAX_TOKENS then ([End], true)
    else match FirstToken(s)
      case None => ([End], true)
      case Some((t, n)) =>
        ReadIsSpelled(s);
        var (toks, bad) := TokensFrom(s[n..], count + 1);
        ([t] + toks, bad)
  }

  lemma {:induction false} SpacesSkipped(gap: ByteString, s: ByteString, count: nat)
    requires Spaces(gap)
    ensures TokensFrom(gap + s, count) == TokensFrom(s, count)
    decreases |gap|
  {
    if gap == [] {
      assert gap + s == s;
    } else {
      SpacesSkipped(gap[1..], s, count);
      assert (gap + s)[0] == gap[0] && (gap + s)[1..] == gap[1..] + s;
    }
  }

  lemma NoSpace(text: ByteString, t: Tok)
    requires text != [] && Spells(text, t)
    ensures !IsSpace(text[0])
  {
    hide KeywordOf, Nat;
  }

  /** Any spelling of at most 8193 tokens reads back as those tokens. */
  lemma {:induction false} SpelledIsRead(pieces: seq<Piece>, trail: ByteString, count: nat)
    requires Spelled(pieces) && Spaces(trail) && count + |pieces| <= MAX_TOKENS + 1
    ensures TokensFrom(Text(pieces) + trail, count) == (ToksOf(pieces), false)
    decreases |pieces|
  {
    hide FirstToken, Spells, Spaces;
    if pieces == [] {
      assert Text(pieces) + trail == trail + [];
      SpacesSkipped(trail, [], count);
    } else {
      var p, rest := pieces[0], Text(pieces[1..]) + trail;
      assert Text(pieces) + trail == p.gap + (p.text + rest);
      SpacesSkipped(p.gap, p.text + rest, count);
      NoSpace(p.text, p.tok);
      RestStarts(pieces, trail);
      TokenReads(p.text, p.tok, rest);
      assert (p.text + rest)[|p.text|..] == rest && (p.text + rest)[0] == p.text[0];
      SpelledIsRead(pieces[1..], trail, count + 1);
    }
  }

  lemma RestStarts(pieces: seq<Piece>, trail: ByteString)
    requires Spelled(pieces) && pieces != [] && Spaces(trail)
    ensures var rest := Text(pieces[1..]) + trail; Wordy(pieces[0].tok) && rest != [] ==> !IdentChar(rest[0])
  {
  }

  /** Every list of tokens that have texts can be written down. */
  lemma {:induction false} CanBeWritten(toks: seq<Tok>, texts: seq<ByteString>) returns (pieces: seq<Piece>)
    requires |texts| == |toks| && forall i | 0 <= i < |toks| :: Spells(texts[i], toks[i])
    ensures Spelled(pieces) && |pieces| == |toks| && ToksOf(pieces) == toks + [End]
    ensures forall i | 0 <= i < |pieces| :: pieces[i] == Piece([32], texts[i], toks[i])
    decreases |toks|
  {
    hide Spells;
    if toks == [] {
      pieces := [];
    } else {
      var rest := CanBeWritten(toks[1..], texts[1..]);
      TokenReads(texts[0], toks[0], []);
      pieces := [Piece([32], texts[0], toks[0])] + rest;
      assert pieces[1..] == rest;
      assert toks + [End] == [toks[0]] + (toks[1..] + [End]);
    }
  }

  /** Where the leading space ends. */
  function SpaceEnd(s: ByteString): (n: nat)
    ensures n <= |s| && Spaces(s[..n]) && (n < |s| ==> !IsSpace(s[n]))
  {
    if s == [] || !IsSpace(s[0]) then 0 else 1 + SpaceEnd(s[1..])
  }

  /** And any text that is read to its end is a spelling of its tokens. */
  lemma {:induction false} ReadIsSpelledThrough(s: ByteString, count: nat) returns (pieces: seq<Piece>,
      trail: ByteString)
    requires !TokensFrom(s, count).1
    ensures Spelled(pieces) && Spaces(trail) && s == Text(pieces) + trail && TokensFrom(s, count).0 == ToksOf(pieces)
    decreases |s|
  {
    hide FirstToken, Spells, Spaces, SpaceEnd, TokensFrom, Spelled;
    var k := SpaceEnd(s);
    var gap, body := s[..k], s[k..];
    assert s == gap + body;
    SpacesSkipped(gap, body, count);
    if body == [] {
      TokensEnd(count);
      pieces, trail := [], gap;
      NothingSpelled();
      assert s == [] + gap && gap + [] == gap;
    } else {
      TokensUnfold(body, 0, count);
      assert body[0..] == body;
      ReadIsSpelled(body);
      var (t, n) := FirstToken(body).value;
      var rest;
      rest, trail := ReadIsSpelledThrough(body[n..], count + 1);
      var p := Piece(gap, body[..n], t);
      pieces := [p] + rest;
      assert pieces[1..] == rest;
      assert body == body[..n] + (Text(rest) + trail);
      NextStarts(p, rest, trail, body[n..]);
    }
  }

  lemma NothingSpelled()
    ensures Spelled([]) && Text([]) == []
  {
  }

  lemma NextStarts(p: Piece, rest: seq<Piece>, trail: ByteString, s: ByteString)
    requires Spelled(rest) && Spaces(p.gap) && p.text != [] && Spells(p.text, p.tok)
    requires s == Text(rest) + trail && (Wordy(p.tok) && s != [] ==> !IdentChar(s[0]))
    ensures Spelled([p] + rest)
  {
    hide Spells, Spaces;
    var pieces := [p] + rest;
    if rest != [] && rest[0].gap == [] {
      assert s[0] == rest[0].text[0];
    }
    forall i | 0 <= i < |pieces| ensures Spaces(pieces[i].gap) && pieces[i].text != []
        && Spells(pieces[i].text, pieces[i].tok) {
      assert i > 0 ==> pieces[i] == rest[i - 1];
    }
    forall i | 0 < i < |pieces| && Wordy(pieces[i - 1].tok)
        && pieces[i].gap == [] ensures !IdentChar(pieces[i].text[0]) {
      assert pieces[i] == rest[i - 1];
      assert i > 1 ==> pieces[i - 1] == rest[i - 2];
    }
  }

  predicate WellFormed(toks: seq<Tok>) {
    |toks| > 0 && toks[|toks| - 1].End? && forall j | 0 <= j < |toks| - 1 :: !toks[j].End?
  }

  lemma {:induction false} EndsOnce(s: ByteString, count: nat)
    requires count <= MAX_TOKENS + 1
    ensures WellFormed(TokensFrom(s, count).0) && |TokensFrom(s, count).0| <= MAX_TOKENS + 2 - count
    decreases |s|
  {
    hide FirstToken, Spells;
    if s == [] {
    } else if IsSpace(s[0]) {
      EndsOnce(s[1..], count);
    } else if count <= MAX_TOKENS && FirstToken(s).Some? {
      ReadIsSpelled(s);
      var (t, n) := FirstToken(s).value;
      EndsOnce(s[n..], count + 1);
      NotEnd(s[..n], t);
    }
  }

  lemma NotEnd(text: ByteString, t: Tok)
    requires Spells(text, t)
    ensures !t.End?
  {
    hide KeywordOf, Bracketed;
  }

  // ---- The scan ------------------------------------------------------------------------------------

  method EndOfWord(s: ByteString, start: nat) returns (i: nat)
    requires start <= |s|
    ensures i == start + WordEnd(s[start..])
  {
    i := start;
    while i < |s| && IdentChar(s[i])
      invariant start <= i <= |s| && WordEnd(s[start..]) == i - start + WordEnd(s[i..])
    {
      assert s[i..][1..] == s[i + 1..];
      i := i + 1;
    }
  }

  /** One token from a position that is not a space, or None where the input is malformed. */
  method NextToken(s: ByteString, start: nat) returns (t: Option<Tok>, i: nat)
    requires start < |s|
    ensures FirstToken(s[start..]) == if t.None? then None else Some((t.value, i - start))
  {
    hide WordEnd, Span, KeywordOf, Nat;
    ghost var rest := s[start..];
    assert rest[1..] == s[start + 1..];
    var c := s[start];
    i := start + 1;
    t := None;
    if c == 35 || c == 58 {
      if i >= |s| || !IdentStart(s[i]) {
        return;
      }
      i := EndOfWord(s, i);
      assert s[start..i] == rest[..i - start];
      t := Some(if c == 35 then NameRef(s[start..i]) else ValueRef(s[start..i]));
    } else if IdentStart(c) {
      i := EndOfWord(s, start);
      assert s[start..i] == rest[..i - start];
      var section := KeywordOf(s[start..i]);
      t := Some(if section.Some? then Keyword(section.value) else Ident(s[start..i]));
    } else if c == 61 || c == 43 || c == 45 {
      t := Some(Op(c));
    } else if c == 40 {
      t := Some(LParen);
    } else if c == 41 {
      t := Some(RParen);
    } else if c == 44 {
      t := Some(Comma);
    } else if c == 46 {
      t := Some(Dot);
    } else if c == 91 {
      var digits, end := ScanDigits(s, i);
      assert digits == s[i..][..end - i];
      if end > i && end < |s| && s[end] == 93 && Nat(digits) <= MAX_INDEX {
        i := end + 1;
        t := Some(IndexTok(Nat(digits)));
      }
    }
  }

  /** The tokens of an expression, always closed by End, and whether something in it was no token. */
  method Tokenize(s: ByteString) returns (toks: seq<Tok>, bad: bool)
    ensures (toks, bad) == TokensFrom(s, 0)
    ensures WellFormed(toks) && |toks| <= MAX_TOKENS + 2
  {
    hide FirstToken, TokensFrom;
    EndsOnce(s, 0);
    toks, bad := [], false;
    var i := 0;
    assert s[0..] == s;
    ghost var whole := TokensFrom(s, 0);
    assert [] + whole.0 == whole.0;
    while i < |s|
      invariant 0 <= i <= |s| && whole == (toks + TokensFrom(s[i..], |toks|).0, TokensFrom(s[i..], |toks|).1)
      decreases |s| - i
    {
      TokensUnfold(s, i, |toks|);
      if IsSpace(s[i]) {
        i := i + 1;
      } else if |toks| > MAX_TOKENS {
        return toks + [End], true;
      } else {
        var t, next := NextToken(s, i);
        if t.None? {
          return toks + [End], true;
        }
        assert toks + ([t.value] + TokensFrom(s[next..], |toks| + 1).0)
            == (toks + [t.value]) + TokensFrom(s[next..], |toks| + 1).0;
        toks := toks + [t.value];
        i := next;
      }
    }
    TokensEnd(|toks|);
    assert s[i..] == [];
    toks := toks + [End];
  }

  lemma TokensEnd(count: nat)
    ensures TokensFrom([], count) == ([End], false)
  {
  }

  lemma TokensUnfold(s: ByteString, i: nat, count: nat)
    requires i < |s|
    ensures var rest := s[i..];
            && (IsSpace(s[i]) ==> TokensFrom(rest, count) == TokensFrom(s[i + 1..], count))
            && (!IsSpace(s[i]) && (count > MAX_TOKENS || FirstToken(rest).None?) ==>
                TokensFrom(rest, count) == ([End], true))
            && (!IsSpace(s[i]) && count <= MAX_TOKENS && FirstToken(rest).Some? ==>
                  var (t, n) := FirstToken(rest).value;
                  && 0 < n <= |s| - i
                  && TokensFrom(rest, count)
                      == ([t] + TokensFrom(s[i + n..], count + 1).0, TokensFrom(s[i + n..], count + 1).1))
  {
    hide FirstToken, Spells;
    assert s[i..][1..] == s[i + 1..];
    if FirstToken(s[i..]).Some? {
      ReadIsSpelled(s[i..]);
      var n := FirstToken(s[i..]).value.1;
      assert s[i..][n..] == s[i + n..];
    }
  }
}

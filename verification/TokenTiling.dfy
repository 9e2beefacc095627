/** Tokens without the tokenizer: a text is laid out in white space, comments and tokens, one way only. */
module TokenTiling {
  import opened Characters
  import opened Wrappers
  import opened TypeSyntax

  // ---------------------------------------------------------------- pieces of a text

  /** The characters from `start` to `end`: a token, or a gap. */
  datatype Piece = Piece(start: nat, end: nat, token: Option<Token>)

  predicate QuotesAt(text: string, i: int) {
    0 <= i && i + 3 <= |text| && text[i] == text[i + 1] == text[i + 2] == '"'
  }

  predicate PairAt(text: string, i: int, first: char, second: char) {
    0 <= i && i + 2 <= |text| && text[i] == first && text[i + 1] == second
  }

  /** A comment runs exactly to the next line feed, or to the end. */
  predicate IsComment(text: string, start: nat, end: nat) {
    && start < end <= |text| && PairAt(text, start, '/', '/')
    && (forall i :: start <= i < end ==> text[i] != '\n') && (end < |text| ==> text[end] == '\n')
  }

  predicate IsGap(text: string, start: nat, end: nat) {
    (end == start + 1 <= |text| && IsSpace(text[start])) || IsComment(text, start, end)
  }

  /** A word is as long as it can be. */
  predicate IsWord(text: string, start: nat, end: nat) {
    && start < end <= |text| && StartsWord(text[start])
    && (forall i :: start <= i < end ==> InWord(text[i])) && (end < |text| ==> !InWord(text[end]))
  }

  /** Prose ends at the first closing delimiter. */
  predicate IsProse(text: string, start: nat, end: nat) {
    && start + 6 <= end <= |text| && QuotesAt(text, start) && QuotesAt(text, end - 3)
    && forall i :: start + 3 <= i < end - 3 ==> !QuotesAt(text, i)
  }

  /** `::` and `->` are never read as two marks. */
  predicate IsMarkPiece(text: string, start: nat, end: nat) {
    || (end == start + 2 && (PairAt(text, start, ':', ':') || PairAt(text, start, '-', '>')))
    || (end == start + 1 <= |text| && IsMark(text[start]) && !PairAt(text, start, ':', ':'))
  }

  predicate IsPiece(text: string, p: Piece) {
    && p.start < p.end <= |text|
    && match p.token
       case None => IsGap(text, p.start, p.end)
       case Some(Word(word)) => IsWord(text, p.start, p.end) && word == text[p.start..p.end]
       case Some(Prose(prose)) => IsProse(text, p.start, p.end) && prose == text[p.start + 3..p.end - 3]
       case Some(Mark(mark)) => IsMarkPiece(text, p.start, p.end) && mark == text[p.start..p.end]
  }

  /** The pieces lie end to end from the start of the text up to `n`. */
  ghost predicate Tiles(text: string, pieces: seq<Piece>, n: nat) {
    && n <= |text|
    && (if pieces == [] then n == 0 else pieces[0].start == 0 && pieces[|pieces| - 1].end == n)
    && (forall k :: 0 <= k < |pieces| ==> IsPiece(text, pieces[k]))
    && (forall k :: 0 < k < |pieces| ==> pieces[k].start == pieces[k - 1].end)
  }

  function TokensOf(pieces: seq<Piece>): seq<Token> {
    if pieces == [] then []
    else
      var last := pieces[|pieces| - 1];
      TokensOf(pieces[..|pieces| - 1]) + if last.token.Some? then [last.token.value] else []
  }

  /** Nothing begins at `at`, not even unfinished prose. */
  ghost predicate NothingAt(text: string, at: nat) {
    !QuotesAt(text, at) && forall p: Piece :: p.start == at ==> !IsPiece(text, p)
  }

  ghost predicate UnfinishedAt(text: string, at: nat) {
    QuotesAt(text, at) && forall i :: at + 3 <= i ==> !QuotesAt(text, i)
  }

  ghost predicate TiledTo(text: string, n: nat) {
    exists pieces :: Tiles(text, pieces, n)
  }

  /** What reading a text may answer. */
  ghost predicate Reads(text: string, answer: Result<seq<Token>, LexError>) {
    match answer
    case Ok(tokens) => exists pieces :: Tiles(text, pieces, |text|) && TokensOf(pieces) == tokens
    case Err(Unexpected(at, ch)) => at < |text| && ch == text[at] && TiledTo(text, at) && NothingAt(text, at)
    case Err(Unterminated(at)) => TiledTo(text, at) && UnfinishedAt(text, at)
  }

  // ---------------------------------------------------------------- one step is one piece

  lemma PrefixAt(text: string, i: nat)
    requires i <= |text|
    ensures QUOTES <= text[i..] <==> QuotesAt(text, i)
    ensures "//" <= text[i..] <==> PairAt(text, i, '/', '/')
    ensures "::" <= text[i..] <==> PairAt(text, i, ':', ':')
    ensures "->" <= text[i..] <==> PairAt(text, i, '-', '>')
  {
    var rest := text[i..];
    assert forall k :: 0 <= k < |rest| ==> rest[k] == text[i + k];
    assert QUOTES == ['"', '"', '"'];
  }

  lemma QuotesInside(text: string, i: nat, k: nat)
    requires i <= |text| && k <= |text[i..]|
    ensures QUOTES <= text[i..][k..] <==> QuotesAt(text, i + k)
  {
    assert text[i..][k..] == text[i + k..];
    PrefixAt(text, i + k);
  }

  lemma QuotesFit(text: string, i: int)
    requires QuotesAt(text, i)
    ensures 0 <= i && i + 3 <= |text|
  {
  }

  lemma ProseStep(text: string, i: nat)
    requires QuotesAt(text, i)
    ensures var found := FindQuotes(text[i..][3..]);
      match found
      case Some(end) => IsProse(text, i, i + end + 6) && text[i..][3..][..end] == text[i + 3..i + end + 3]
      case None => UnfinishedAt(text, i)
  {
    hide FindQuotes, QuotesAt;
    assert i + 3 <= |text| by {
      QuotesFit(text, i);
    }
    var rest := text[i + 3..];
    assert text[i..][3..] == rest;
    var found := FindQuotes(rest);
    var bound := if found.Some? then found.value else |rest|;
    forall k | i + 3 <= k < i + 3 + bound
      ensures !QuotesAt(text, k)
    {
      QuotesInside(text, i + 3, k - i - 3);
    }
    forall k | k > |text| - 3
      ensures !QuotesAt(text, k)
    {
      if QuotesAt(text, k) {
        QuotesFit(text, k);
      }
    }
    if found.Some? {
      QuotesInside(text, i + 3, found.value);
    }
  }

  /** The marks, one by one. */
  lemma MarksAre(ch: char)
    ensures IsMark(ch) <==>
      || ch == '{' || ch == '}' || ch == '(' || ch == ')' || ch == ':' || ch == ';' || ch == '.' || ch == '$'
      || ch == '<' || ch == '>' || ch == ',' || ch == '#' || ch == '[' || ch == ']'
  {
    var marks := "{}():;.$<>,#[]";
    assert marks == ['{', '}', '(', ')', ':', ';', '.', '$', '<', '>', ',', '#', '[', ']'];
  }

  /** What the first character at `i` decides. */
  datatype Class = SpaceClass | CommentClass | ProseClass | WordClass | PairClass | MarkClass | NoClass

  function ClassAt(text: string, i: nat): Class
    requires i < |text|
  {
    if IsSpace(text[i]) then SpaceClass
    else if PairAt(text, i, '/', '/') then CommentClass
    else if QuotesAt(text, i) then ProseClass
    else if StartsWord(text[i]) then WordClass
    else if PairAt(text, i, ':', ':') || PairAt(text, i, '-', '>') then PairClass
    else if IsMark(text[i]) then MarkClass
    else NoClass
  }

  /** Every kind of piece begins in its own way. */
  lemma PieceClass(text: string, p: Piece)
    requires IsPiece(text, p)
    ensures match p.token
      case None => ClassAt(text, p.start) == if IsComment(text, p.start, p.end) then CommentClass else SpaceClass
      case Some(Word(_)) => ClassAt(text, p.start) == WordClass
      case Some(Prose(_)) => ClassAt(text, p.start) == ProseClass
      case Some(Mark(_)) => ClassAt(text, p.start) == if p.end == p.start + 2 then PairClass else MarkClass
  {
    MarksAre(text[p.start]);
  }

  /** A piece is determined by where it starts. */
  lemma OnePiece(text: string, p: Piece, q: Piece)
    requires IsPiece(text, p) && IsPiece(text, q) && p.start == q.start
    ensures p == q
  {
    PieceClass(text, p);
    PieceClass(text, q);
    hide IsSpace, IsMark;
    hide ClassAt;
    assert p.end == q.end;
  }

  lemma StepText(text: string, i: nat, n: nat)
    requires i <= |text| && n <= |text[i..]|
    ensures text[i..][..n] == text[i..i + n]
    ensures forall k :: 0 <= k < |text[i..]| ==> text[i..][k] == text[i + k]
  {
  }

  lemma WordStep(text: string, i: nat)
    requires i < |text| && StartsWord(text[i])
    ensures var n := WordLength(text[i..]);
      IsWord(text, i, i + n) && text[i..][..n] == text[i..i + n]
  {
    hide WordLength;
    var rest := text[i..];
    StepText(text, i, WordLength(rest));
    assert rest[0] == text[i];
    forall k | i <= k < i + WordLength(rest)
      ensures InWord(text[k])
    {
      assert InWord(rest[k - i]);
    }
  }

  lemma CommentStep(text: string, i: nat)
    requires PairAt(text, i, '/', '/')
    ensures IsComment(text, i, i + LineLength(text[i..]))
  {
    hide LineLength;
    var rest := text[i..];
    StepText(text, i, LineLength(rest));
    assert rest[0] == '/';
    forall k | i <= k < i + LineLength(rest)
      ensures text[k] != '\n'
    {
      assert rest[k - i] != '\n';
    }
  }

  /** A step of the tokenizer takes exactly the piece that starts there, or there is none. */
  lemma StepIsPiece(text: string, i: nat)
    requires i < |text|
    ensures match StepAt(text[i..])
      case Skip(n) => IsPiece(text, Piece(i, i + n, None))
      case Take(token, n) => IsPiece(text, Piece(i, i + n, Some(token)))
      case Fail(unterminated) => if unterminated then UnfinishedAt(text, i) else NothingAt(text, i)
  {
    hide IsSpace, IsMark, StartsWord, InWord, FindQuotes, WordLength, LineLength, UnfinishedAt, NothingAt;
    hide IsProse, IsComment, IsWord, QuotesAt, PairAt;
    var rest := text[i..];
    PrefixAt(text, i);
    assert rest[0] == text[i];
    if IsSpace(text[i]) {
    } else if "//" <= rest {
      CommentStep(text, i);
    } else if QUOTES <= rest {
      ProseStep(text, i);
    } else if StartsWord(text[i]) {
      WordStep(text, i);
    } else if "::" <= rest || "->" <= rest {
      StepText(text, i, 2);
    } else if IsMark(text[i]) {
      StepText(text, i, 1);
    } else {
      NothingStarts(text, i);
    }
  }

  lemma NothingStarts(text: string, i: nat)
    requires i < |text| && ClassAt(text, i).NoClass?
    ensures NothingAt(text, i)
  {
    hide IsSpace, IsMark;
    forall p: Piece | p.start == i
      ensures !IsPiece(text, p)
    {
      if IsPiece(text, p) {
        PieceClass(text, p);
      }
    }
  }

  // ---------------------------------------------------------------- reading is laying out

  lemma TilesSnoc(text: string, pieces: seq<Piece>, p: Piece)
    requires Tiles(text, pieces, p.start) && IsPiece(text, p)
    ensures Tiles(text, pieces + [p], p.end)
    ensures TokensOf(pieces + [p]) == TokensOf(pieces) + if p.token.Some? then [p.token.value] else []
  {
    hide IsPiece;
    assert (pieces + [p])[..|pieces|] == pieces;
    assert p.end <= |text| by {
      PieceFits(text, p);
    }
  }

  lemma PieceFits(text: string, p: Piece)
    requires IsPiece(text, p)
    ensures p.start < p.end <= |text|
  {
  }

  lemma ReadsToEnd(text: string, pieces: seq<Piece>)
    requires Tiles(text, pieces, |text|)
    ensures Reads(text, Ok(TokensOf(pieces)))
  {
    hide Tiles;
  }

  lemma ReadsToStop(text: string, pieces: seq<Piece>, i: nat, unterminated: bool)
    requires Tiles(text, pieces, i) && i < |text| && if unterminated then UnfinishedAt(text, i) else NothingAt(text, i)
    ensures Reads(text, Err(if unterminated then Unterminated(i) else Unexpected(i, text[i])))
  {
    hide Tiles, UnfinishedAt, NothingAt;
  }

  /** However far a text is laid out, reading on lays out the rest. */
  lemma {:induction false} LexReads(text: string, pieces: seq<Piece>, i: nat)
    requires Tiles(text, pieces, i) && i <= |text|
    ensures Reads(text, Prepend(TokensOf(pieces), LexFrom(text, i)))
    decreases |text| - i
  {
    hide StepAt, IsPiece, Tiles, Reads, UnfinishedAt, NothingAt, TokensOf, LexFrom, Prepend;
    if i == |text| {
      LexDone(TokensOf(pieces), text);
      ReadsToEnd(text, pieces);
    } else {
      StepIsPiece(text, i);
      LexStep(TokensOf(pieces), text, i);
      match StepAt(text[i..])
      case Skip(n) =>
        PieceFits(text, Piece(i, i + n, None));
        TilesSnoc(text, pieces, Piece(i, i + n, None));
        assert TokensOf(pieces) + [] == TokensOf(pieces);
        LexReads(text, pieces + [Piece(i, i + n, None)], i + n);
      case Take(token, n) =>
        PieceFits(text, Piece(i, i + n, Some(token)));
        TilesSnoc(text, pieces, Piece(i, i + n, Some(token)));
        LexReads(text, pieces + [Piece(i, i + n, Some(token))], i + n);
      case Fail(unterminated) => ReadsToStop(text, pieces, i, unterminated);
    }
  }

  lemma {:induction false} TilesAreUnique(text: string, a: seq<Piece>, n: nat, b: seq<Piece>, m: nat)
    requires Tiles(text, a, n) && Tiles(text, b, m) && |a| <= |b|
    ensures a == b[..|a|]
    ensures if |a| < |b| then b[|a|].start == n && IsPiece(text, b[|a|]) else n == m
    decreases |a|
  {
    hide IsPiece;
    if a != [] {
      var k := |a| - 1;
      TilesFront(text, a, n);
      TilesAreUnique(text, a[..k], a[k].start, b, m);
      assert a[..k] == b[..k];
      OnePiece(text, a[k], b[k]);
      assert a == a[..k] + [a[k]] && b[..k + 1] == b[..k] + [b[k]];
    }
  }

  lemma TilesFront(text: string, a: seq<Piece>, n: nat)
    requires Tiles(text, a, n) && a != []
    ensures Tiles(text, a[..|a| - 1], a[|a| - 1].start)
  {
    PieceFits(text, a[|a| - 1]);
    hide IsPiece;
  }

  /** Where a layout of a text can stop: at its end, or where nothing can follow. */
  ghost predicate Stops(text: string, n: nat) {
    n == |text| || UnfinishedAt(text, n) || NothingAt(text, n)
  }

  lemma NoPieceAtStop(text: string, n: nat, p: Piece)
    requires Stops(text, n) && p.start == n
    ensures !IsPiece(text, p)
  {
    if IsPiece(text, p) {
      PieceClass(text, p);
      MarksAre('"');
    }
  }

  lemma StopsAlike(text: string, a: seq<Piece>, n: nat, b: seq<Piece>, m: nat)
    requires Tiles(text, a, n) && Tiles(text, b, m) && Stops(text, n) && Stops(text, m)
    ensures a == b && n == m
  {
    hide IsPiece, Stops, Tiles;
    if |a| <= |b| {
      TilesAreUnique(text, a, n, b, m);
      if |a| < |b| {
        NoPieceAtStop(text, n, b[|a|]);
      }
    } else {
      TilesAreUnique(text, b, m, a, n);
      NoPieceAtStop(text, m, a[|b|]);
    }
    assert b[..|b|] == b;
  }

  lemma WitnessOf(text: string, answer: Result<seq<Token>, LexError>) returns (pieces: seq<Piece>, n: nat)
    requires Reads(text, answer)
    ensures Tiles(text, pieces, n) && Stops(text, n)
    ensures match answer
      case Ok(tokens) => n == |text| && TokensOf(pieces) == tokens
      case Err(Unexpected(at, ch)) => n == at < |text| && ch == text[at] && NothingAt(text, at)
      case Err(Unterminated(at)) => n == at && UnfinishedAt(text, at)
  {
    hide Tiles, NothingAt, UnfinishedAt;
    match answer
    case Ok(tokens) =>
      n := |text|;
      pieces :| Tiles(text, pieces, n) && TokensOf(pieces) == tokens;
    case Err(Unexpected(at, ch)) =>
      n := at;
      pieces :| Tiles(text, pieces, n);
    case Err(Unterminated(at)) =>
      n := at;
      pieces :| Tiles(text, pieces, n);
  }

  /** There is one answer only. */
  lemma ReadsOneWay(text: string, a: Result<seq<Token>, LexError>, b: Result<seq<Token>, LexError>)
    requires Reads(text, a) && Reads(text, b)
    ensures a == b
  {
    hide Reads, Tiles, Stops, IsPiece, TokensOf;
    var ps, n := WitnessOf(text, a);
    var qs, m := WitnessOf(text, b);
    StopsAlike(text, ps, n, qs, m);
  }

  /** The tokenizer's answer is exactly the one the layout of the text allows. */
  lemma LexIff(text: string, answer: Result<seq<Token>, LexError>)
    ensures Lex(text) == answer <==> Reads(text, answer)
  {
    hide Reads, LexFrom;
    assert Reads(text, Lex(text)) by {
      NothingYet(text);
      LexReads(text, [], 0);
      PrependNothing(LexFrom(text, 0));
    }
    if Reads(text, answer) {
      ReadsOneWay(text, Lex(text), answer);
    }
  }

  lemma NothingYet(text: string)
    ensures Tiles(text, [], 0) && TokensOf([]) == []
  {
  }

  // ---------------------------------------------------------------- lines, and what can be left out of them

  function Moved(p: Piece, shift: nat): Piece {
    Piece(p.start + shift, p.end + shift, p.token)
  }

  function MovedAll(pieces: seq<Piece>, shift: nat): (moved: seq<Piece>)
    ensures |moved| == |pieces| && forall k :: 0 <= k < |moved| ==> moved[k] == Moved(pieces[k], shift)
  {
    seq(|pieces|, k requires 0 <= k < |pieces| => Moved(pieces[k], shift))
  }

  lemma MovedTokens(pieces: seq<Piece>, shift: nat)
    ensures TokensOf(MovedAll(pieces, shift)) == TokensOf(pieces)
  {
    if pieces != [] {
      MovedTokens(pieces[..|pieces| - 1], shift);
      assert MovedAll(pieces, shift)[..|pieces| - 1] == MovedAll(pieces[..|pieces| - 1], shift);
    }
  }

  lemma {:induction false} TokensConcat(a: seq<Piece>, b: seq<Piece>)
    ensures TokensOf(a + b) == TokensOf(a) + TokensOf(b)
  {
    if b == [] {
      assert a + b == a;
    } else {
      TokensConcat(a, b[..|b| - 1]);
      assert (a + b)[..|a + b| - 1] == a + b[..|b| - 1];
    }
  }

  lemma MovedText(front: string, text: string)
    ensures forall i :: 0 <= i < |text| ==> (front + text)[i + |front|] == text[i]
    ensures forall i, j :: 0 <= i <= j <= |text| ==> (front + text)[i + |front|..j + |front|] == text[i..j]
  {
    forall i, j | 0 <= i <= j <= |text|
      ensures (front + text)[i + |front|..j + |front|] == text[i..j]
    {
    }
  }

  lemma MovedMarks(front: string, text: string)
    ensures forall i: nat :: QuotesAt(front + text, i + |front|) <==> QuotesAt(text, i)
    ensures forall i: nat, a, b :: PairAt(front + text, i + |front|, a, b) <==> PairAt(text, i, a, b)
  {
    MovedText(front, text);
  }

  lemma MovedGap(front: string, text: string, i: nat, j: nat)
    ensures IsGap(front + text, i + |front|, j + |front|) <==> IsGap(text, i, j)
  {
    hide IsSpace, PairAt;
    var n, all := |front|, front + text;
    MovedMarks(front, text);
    MovedText(front, text);
    if i < j <= |text| {
      assert (forall k :: i + n <= k < j + n ==> all[k] != '\n') <==> (forall k :: i <= k < j ==> text[k] != '\n') by {
        assert forall k :: i + n <= k < j + n ==> all[k] == text[k - n];
        assert forall k :: i <= k < j ==> text[k] == all[k + n];
      }
    }
  }

  lemma MovedWord(front: string, text: string, i: nat, j: nat)
    ensures IsWord(front + text, i + |front|, j + |front|) <==> IsWord(text, i, j)
  {
    hide StartsWord, InWord;
    var n, all := |front|, front + text;
    MovedText(front, text);
    if i < j <= |text| {
      assert (forall k :: i + n <= k < j + n ==> InWord(all[k])) <==> (forall k :: i <= k < j ==> InWord(text[k])) by {
        assert forall k :: i + n <= k < j + n ==> all[k] == text[k - n];
        assert forall k :: i <= k < j ==> text[k] == all[k + n];
      }
    }
  }

  lemma MovedProse(front: string, text: string, i: nat, j: nat)
    ensures IsProse(front + text, i + |front|, j + |front|) <==> IsProse(text, i, j)
  {
    hide QuotesAt;
    var n, all := |front|, front + text;
    MovedMarks(front, text);
    if i + 6 <= j <= |text| {
      assert QuotesAt(all, j - 3 + n) <==> QuotesAt(text, j - 3);
      if IsProse(text, i, j) {
        forall k | i + n + 3 <= k < j + n - 3
          ensures !QuotesAt(all, k)
        {
          assert QuotesAt(all, (k - n) + n) <==> QuotesAt(text, k - n);
        }
      }
      if IsProse(all, i + n, j + n) {
        forall k | i + 3 <= k < j - 3
          ensures !QuotesAt(text, k)
        {
          assert !QuotesAt(all, k + n);
        }
      }
    }
  }

  lemma MovedMark(front: string, text: string, i: nat, j: nat)
    ensures IsMarkPiece(front + text, i + |front|, j + |front|) <==> IsMarkPiece(text, i, j)
  {
    hide IsMark, PairAt;
    MovedText(front, text);
    MovedMarks(front, text);
  }

  /** A piece read after other text is the same piece further on. */
  lemma MovedIsPiece(front: string, text: string, p: Piece)
    ensures IsPiece(front + text, Moved(p, |front|)) <==> IsPiece(text, p)
  {
    hide IsGap, IsWord, IsProse, IsMarkPiece;
    MovedText(front, text);
    MovedGap(front, text, p.start, p.end);
    MovedWord(front, text, p.start, p.end);
    MovedProse(front, text, p.start, p.end);
    MovedMark(front, text, p.start, p.end);
    if IsProse(text, p.start, p.end) {
      ProseIsLong(text, p.start, p.end);
    }
  }

  lemma ProseIsLong(text: string, i: nat, j: nat)
    requires IsProse(text, i, j)
    ensures i + 6 <= j <= |text|
  {
  }

  /** `rest` does not run on from a piece that ends where it begins. */
  predicate Apart(a: string, p: Piece, rest: string) {
    rest != "" ==>
      && !InWord(rest[0]) && rest[0] != ':'
      && (p.token.None? && p.end == |a| && IsComment(a, p.start, p.end) ==> rest[0] == '\n')
  }

  lemma StayingText(a: string, rest: string)
    ensures forall i :: 0 <= i < |a| ==> (a + rest)[i] == a[i]
    ensures forall i, j :: 0 <= i <= j <= |a| ==> (a + rest)[i..j] == a[i..j]
    ensures forall i :: 0 <= i && i + 3 <= |a| ==> (QuotesAt(a + rest, i) <==> QuotesAt(a, i))
    ensures forall i, x, y :: 0 <= i && i + 2 <= |a| ==> (PairAt(a + rest, i, x, y) <==> PairAt(a, i, x, y))
  {
    forall i, j | 0 <= i <= j <= |a|
      ensures (a + rest)[i..j] == a[i..j]
    {
    }
  }

  lemma StaysMark(a: string, rest: string, i: nat, j: nat)
    requires IsMarkPiece(a, i, j) && (rest != "" ==> rest[0] != ':')
    ensures IsMarkPiece(a + rest, i, j)
  {
    hide IsMark;
    StayingText(a, rest);
    if i + 1 == |a| && rest != "" {
      assert (a + rest)[i + 1] == rest[0];
    }
  }

  /** A piece stays a piece when text that does not run on from it follows. */
  lemma StaysPiece(a: string, rest: string, p: Piece)
    requires IsPiece(a, p) && Apart(a, p, rest)
    ensures IsPiece(a + rest, p)
  {
    hide IsSpace, IsMark, StartsWord, InWord, QuotesAt, IsMarkPiece;
    StayingText(a, rest);
    if rest == "" {
      assert a + rest == a;
    } else {
      assert (a + rest)[|a|] == rest[0];
      match p.token
      case None =>
      case Some(Word(_)) =>
      case Some(Prose(_)) =>
      case Some(Mark(_)) => StaysMark(a, rest, p.start, p.end);
    }
  }

  lemma TilesStay(a: string, rest: string, pieces: seq<Piece>, n: nat)
    requires Tiles(a, pieces, n) && forall k :: 0 <= k < |pieces| ==> Apart(a, pieces[k], rest)
    ensures Tiles(a + rest, pieces, n)
  {
    hide IsPiece, Apart;
    forall k | 0 <= k < |pieces|
      ensures IsPiece(a + rest, pieces[k])
    {
      StaysPiece(a, rest, pieces[k]);
    }
  }

  lemma LineApart(a: string, rest: string, p: Piece)
    requires rest != "" && rest[0] == '\n'
    ensures Apart(a, p, rest)
  {
  }

  lemma TilesMove(front: string, text: string, ps: seq<Piece>, qs: seq<Piece>, m: nat)
    requires Tiles(front + text, ps, |front|) && Tiles(text, qs, m)
    ensures Tiles(front + text, ps + MovedAll(qs, |front|), |front| + m)
  {
    hide IsPiece;
    var moved := MovedAll(qs, |front|);
    forall k | 0 <= k < |qs|
      ensures IsPiece(front + text, moved[k])
    {
      MovedIsPiece(front, text, qs[k]);
    }
    var all := ps + moved;
    assert forall k :: 0 <= k < |ps| ==> all[k] == ps[k];
    assert forall k :: |ps| <= k < |all| ==> all[k] == moved[k - |ps|];
  }

  lemma NothingMoves(front: string, text: string, at: nat)
    ensures NothingAt(text, at) ==> NothingAt(front + text, at + |front|)
    ensures UnfinishedAt(text, at) ==> UnfinishedAt(front + text, at + |front|)
  {
    hide IsPiece, QuotesAt;
    var n := |front|;
    MovedMarks(front, text);
    if NothingAt(text, at) {
      forall p: Piece | p.start == at + n
        ensures !IsPiece(front + text, p)
      {
        if IsPiece(front + text, p) {
          PieceFits(front + text, p);
          MovedIsPiece(front, text, Piece(at, p.end - n, p.token));
        }
      }
    }
    if UnfinishedAt(text, at) {
      forall i | at + n + 3 <= i
        ensures !QuotesAt(front + text, i)
      {
        assert QuotesAt(front + text, (i - n) + n) <==> QuotesAt(text, i - n);
      }
    }
  }

  function ErrorAfter(error: LexError, skipped: nat): LexError {
    match error
    case Unterminated(at) => Unterminated(at + skipped)
    case Unexpected(at, ch) => Unexpected(at + skipped, ch)
  }

  function AnswerAfter(tokens: seq<Token>, later: Result<seq<Token>, LexError>,
                       skipped: nat): Result<seq<Token>, LexError> {
    match later
    case Ok(more) => Ok(tokens + more)
    case Err(error) => Err(ErrorAfter(error, skipped))
  }

  lemma ReadsAfter(front: string, text: string, ps: seq<Piece>, answer: Result<seq<Token>, LexError>)
    requires Tiles(front + text, ps, |front|) && Reads(text, answer)
    ensures Reads(front + text, AnswerAfter(TokensOf(ps), answer, |front|))
  {
    hide IsPiece, Tiles, NothingAt, UnfinishedAt, TokensOf;
    var qs, m := WitnessOf(text, answer);
    TilesMove(front, text, ps, qs, m);
    TokensConcat(ps, MovedAll(qs, |front|));
    MovedTokens(qs, |front|);
    NothingMoves(front, text, m);
    if answer.Err? && answer.error.Unexpected? {
      assert (front + text)[m + |front|] == text[m];
    }
  }

  lemma FeedIsPiece(a: string, b: string)
    ensures IsPiece(a + ("\n" + b), Piece(|a|, |a| + 1, None))
  {
    assert (a + ("\n" + b))[|a|] == '\n';
  }

  /** A line that reads by itself reads the same in front of anything: its tokens come first. */
  lemma LinesJoin(a: string, b: string)
    requires Lex(a).Ok?
    ensures Lex(a + ("\n" + b)) == AnswerAfter(Lex(a).value, Lex(b), |a| + 1)
  {
    hide Reads, Lex, IsPiece, TokensOf, Tiles, Apart;
    var front, all := a + "\n", a + ("\n" + b);
    assert all == front + b;
    LexIff(a, Lex(a));
    LexIff(b, Lex(b));
    var ps, n := WitnessOf(a, Lex(a));
    forall k | 0 <= k < |ps|
      ensures Apart(a, ps[k], "\n" + b)
    {
      LineApart(a, "\n" + b, ps[k]);
    }
    TilesStay(a, "\n" + b, ps, n);
    FeedIsPiece(a, b);
    TilesSnoc(all, ps, Piece(|a|, |a| + 1, None));
    assert TokensOf(ps) + [] == TokensOf(ps);
    ReadsAfter(front, b, ps + [Piece(|a|, |a| + 1, None)], Lex(b));
    LexIff(all, AnswerAfter(Lex(a).value, Lex(b), |a| + 1));
  }

  /** White space and then, perhaps, a comment, all on one line. */
  predicate Blank(gap: string) {
    && (forall i :: 0 <= i < |gap| ==> gap[i] != '\n')
    && exists n: nat ::
         && n <= |gap| && (forall i :: 0 <= i < n ==> IsSpace(gap[i]))
         && (n < |gap| ==> PairAt(gap, n, '/', '/'))
  }

  /** The last piece is a comment that more text on the line would belong to. */
  predicate OpenComment(a: string, pieces: seq<Piece>) {
    pieces != [] && pieces[|pieces| - 1].token.None? && IsComment(a, pieces[|pieces| - 1].start, |a|)
  }

  lemma LongerComment(a: string, rest: string, i: nat)
    requires IsComment(a, i, |a|) && forall k :: 0 <= k < |rest| ==> rest[k] != '\n'
    ensures IsComment(a + rest, i, |a + rest|)
  {
    StayingText(a, rest);
    assert forall k :: |a| <= k < |a + rest| ==> (a + rest)[k] == rest[k - |a|];
  }

  lemma {:induction false} SpacesTile(text: string, n: nat) returns (pieces: seq<Piece>)
    requires n <= |text| && forall i :: 0 <= i < n ==> IsSpace(text[i])
    ensures Tiles(text, pieces, n) && TokensOf(pieces) == []
  {
    pieces := [];
    if n > 0 {
      hide IsSpace, Tiles, TokensOf;
      var front := SpacesTile(text, n - 1);
      TilesSnoc(text, front, Piece(n - 1, n, None));
      pieces := front + [Piece(n - 1, n, None)];
    }
  }

  lemma BlankReads(gap: string)
    requires Blank(gap)
    ensures Reads(gap, Ok([]))
  {
    hide IsSpace, Tiles, TokensOf;
    var n: nat :| n <= |gap| && (forall i :: 0 <= i < n ==> IsSpace(gap[i]))
      && (n < |gap| ==> PairAt(gap, n, '/', '/'));
    var pieces := SpacesTile(gap, n);
    if n < |gap| {
      TilesSnoc(gap, pieces, Piece(n, |gap|, None));
      pieces := pieces + [Piece(n, |gap|, None)];
    }
  }

  lemma BlankStart(gap: string)
    requires Blank(gap) && gap != ""
    ensures !InWord(gap[0]) && gap[0] != ':'
  {
    var n: nat :| n <= |gap| && (forall i :: 0 <= i < n ==> IsSpace(gap[i]))
      && (n < |gap| ==> PairAt(gap, n, '/', '/'));
    assert IsSpace(gap[0]) || gap[0] == '/';
  }

  lemma TilesEnd(text: string, pieces: seq<Piece>, n: nat, k: nat)
    requires Tiles(text, pieces, n) && k < |pieces|
    ensures if k == |pieces| - 1 then pieces[k].end == n else pieces[k].end < n
    decreases |pieces|
  {
    if k < |pieces| - 1 {
      TilesFront(text, pieces, n);
      TilesEnd(text, pieces[..|pieces| - 1], pieces[|pieces| - 1].start, k);
      PieceFits(text, pieces[|pieces| - 1]);
    }
  }

  /** A line that reads by itself reads the same with white space and a comment at its end. */
  lemma TrailingBlankReads(a: string, gap: string)
    requires Lex(a).Ok? && Blank(gap)
    ensures Lex(a + gap) == Lex(a)
  {
    hide Reads, Lex, Tiles, TokensOf, IsPiece, Blank, InWord, IsComment;
    LexIff(a, Lex(a));
    var ps, n := WitnessOf(a, Lex(a));
    if gap == "" {
      assert a + gap == a;
    } else {
      BlankStart(gap);
      if OpenComment(a, ps) {
        CommentGrows(a, gap, ps);
      } else {
        forall k | 0 <= k < |ps|
          ensures Apart(a, ps[k], gap)
        {
          TilesEnd(a, ps, n, k);
        }
        TilesStay(a, gap, ps, n);
        BlankReads(gap);
        ReadsAfter(a, gap, ps, Ok([]));
        assert TokensOf(ps) + [] == TokensOf(ps);
        LexIff(a + gap, Lex(a));
      }
    }
  }

  lemma CommentGrows(a: string, gap: string, ps: seq<Piece>)
    requires Tiles(a, ps, |a|) && Lex(a) == Ok(TokensOf(ps)) && OpenComment(a, ps)
    requires gap != "" && Blank(gap)
    ensures Lex(a + gap) == Lex(a)
  {
    hide Reads, Lex, IsSpace, IsMark, InWord, Tiles, TokensOf;
    var k := |ps| - 1;
    var front, last := ps[..k], Piece(ps[k].start, |a + gap|, None);
    BlankStart(gap);
    TilesFront(a, ps, |a|);
    LongerComment(a, gap, ps[k].start);
    forall l | 0 <= l < k
      ensures Apart(a, front[l], gap)
    {
      TilesEnd(a, ps, |a|, l);
    }
    TilesStay(a, gap, front, ps[k].start);
    TilesSnoc(a + gap, front, last);
    assert ps == front + [ps[k]];
    TilesSnoc(a, front, ps[k]) by {
      PieceOf(a, ps, k);
    }
    ReadsToEnd(a + gap, front + [last]);
    LexIff(a + gap, Ok(TokensOf(front + [last])));
  }

  lemma PieceOf(text: string, pieces: seq<Piece>, k: nat)
    requires Tiles(text, pieces, |text|) && k < |pieces|
    ensures IsPiece(text, pieces[k])
  {
  }

  function Displaced(answer: Result<seq<Token>, LexError>, skipped: nat): Result<seq<Token>, LexError> {
    match answer
    case Ok(tokens) => Ok(tokens)
    case Err(error) => Err(ErrorAfter(error, skipped))
  }

  /** White space and a comment at the end of a line can be deleted: the tokens stay, and errors further
      on only move. */
  lemma TrailingBlankVanishes(a: string, gap: string, b: string)
    requires Lex(a).Ok? && Blank(gap)
    ensures Lex((a + gap) + ("\n" + b)) == Displaced(Lex(a + ("\n" + b)), |gap|)
  {
    hide Lex, Blank;
    TrailingBlankReads(a, gap);
    LinesJoin(a + gap, b);
    LinesJoin(a, b);
  }
}

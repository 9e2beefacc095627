/** Printing type expressions, and reading the printed text back. */
module TypePrinting {
  import opened Wrappers
  import opened TypeSyntax

  // ---------------------------------------------------------------- the printer

  function Join(parts: seq<string>, separator: string): string {
    if parts == [] then ""
    else if |parts| == 1 then parts[0]
    else parts[0] + separator + Join(parts[1..], separator)
  }

  function PathText(path: TypePath): string {
    Join([path.root] + path.segments, "::")
  }

  function TypeText(t: TypeExpr): string
    decreases t
  {
    match t
    case Tuple(items) => "(" + Join(TextOfAll(items), ", ") + ")"
    case Named(path, arguments) =>
      PathText(path) + if arguments == [] then "" else "<" + Join(TextOfAll(arguments), ", ") + ">"
  }

  function TextOfAll(items: seq<TypeExpr>): (texts: seq<string>)
    ensures |texts| == |items|
    decreases items
  {
    if items == [] then [] else [TypeText(items[0])] + TextOfAll(items[1..])
  }

  /** Reading one whole type expression. */
  function Read(text: string): Option<TypeExpr> {
    match Lex(text)
    case Err(_) => None
    case Ok(tokens) =>
      match ParseType(tokens)
      case Ok(parsed) => if parsed.rest == [] then Some(parsed.value) else None
      case Err(_) => None
  }

  // ---------------------------------------------------------------- which expressions can be read

  predicate ValidWord(word: string) {
    word != "" && StartsWord(word[0]) && forall i :: 0 <= i < |word| ==> InWord(word[i])
  }

  predicate ValidRoot(root: string) {
    ValidWord(root) || (root != "" && root[0] == '$' && ValidWord(root[1..]))
  }

  /** Made of identifiers; `self` always selects something. */
  predicate ShapedPath(path: TypePath) {
    && ValidRoot(path.root) && (path.root == "self" ==> path.segments != [])
    && forall i :: 0 <= i < |path.segments| ==> ValidWord(path.segments[i])
  }

  predicate Shaped(t: TypeExpr)
    decreases t
  {
    match t
    case Tuple(items) => ShapedAll(items)
    case Named(path, arguments) => ShapedPath(path) && ShapedAll(arguments)
  }

  predicate ShapedAll(items: seq<TypeExpr>)
    decreases items
  {
    items == [] || (Shaped(items[0]) && ShapedAll(items[1..]))
  }

  predicate SelfFree(t: TypeExpr)
    decreases t
  {
    match t
    case Tuple(items) => SelfFreeAll(items)
    case Named(path, arguments) => path.root != "self" && SelfFreeAll(arguments)
  }

  predicate SelfFreeAll(items: seq<TypeExpr>)
    decreases items
  {
    items == [] || (SelfFree(items[0]) && SelfFreeAll(items[1..]))
  }

  // ---------------------------------------------------------------- tokens of the printed text

  function SegmentTokens(segments: seq<string>): seq<Token> {
    if segments == [] then [] else [Mark("::"), Word(segments[0])] + SegmentTokens(segments[1..])
  }

  function PathTokens(path: TypePath): seq<Token> {
    (if path.root != "" && path.root[0] == '$' then [Mark("$"), Word(path.root[1..])] else [Word(path.root)]) +
    SegmentTokens(path.segments)
  }

  function TypeTokens(t: TypeExpr): seq<Token>
    decreases t
  {
    match t
    case Tuple(items) => [Mark("(")] + ListTokens(items) + [Mark(")")]
    case Named(path, arguments) =>
      PathTokens(path) + if arguments == [] then [] else [Mark("<")] + ListTokens(arguments) + [Mark(">")]
  }

  function ListTokens(items: seq<TypeExpr>): seq<Token>
    decreases items
  {
    if items == [] then []
    else if |items| == 1 then TypeTokens(items[0])
    else TypeTokens(items[0]) + [Mark(",")] + ListTokens(items[1..])
  }

  // ---------------------------------------------------------------- lexing printed text

  predicate Here(text: string, offset: nat, part: string) {
    offset + |part| <= |text| && text[offset..offset + |part|] == part
  }

  /** No word runs on past `offset`. */
  predicate Ends(text: string, offset: nat) {
    offset <= |text| && (offset < |text| ==> !InWord(text[offset]))
  }

  /** From `offset`, the tokenizer reads exactly `part`, as `tokens`. */
  predicate Reads(text: string, offset: nat, part: string, tokens: seq<Token>) {
    offset + |part| <= |text| && LexFrom(text, offset) == Prepend(tokens, LexFrom(text, offset + |part|))
  }

  lemma HereParts(text: string, offset: nat, a: string, b: string)
    requires Here(text, offset, a + b)
    ensures Here(text, offset, a) && Here(text, offset + |a|, b)
  {
    var part := text[offset..offset + |a + b|];
    assert part[..|a|] == a && part[|a|..] == b;
    assert text[offset..offset + |a|] == part[..|a|];
    assert text[offset + |a|..offset + |a| + |b|] == part[|a|..];
  }

  lemma ReadsThen(text: string, offset: nat, a: string, s: seq<Token>, b: string, t: seq<Token>)
    ensures Reads(text, offset, a, s) && Reads(text, offset + |a|, b, t) ==> Reads(text, offset, a + b, s + t)
  {
    hide LexFrom, Prepend;
    if offset + |a| + |b| <= |text| {
      PrependTwice(s, t, LexFrom(text, offset + |a| + |b|));
    }
  }

  lemma WordReads(text: string, offset: nat, word: string)
    requires ValidWord(word) && Here(text, offset, word) && Ends(text, offset + |word|)
    ensures Reads(text, offset, word, [Word(word)])
  {
    hide FindQuotes, LineLength;
    var tail := text[offset..];
    assert forall i :: 0 <= i < |word| ==> tail[i] == word[i];
    assert tail[..|word|] == word;
    assert WordLength(tail) == |word|;
    assert StepAt(tail) == Take(Word(word), |word|);
  }

  predicate PlainMark(ch: char) {
    ch in "()<>,$"
  }

  lemma MarkReads(text: string, offset: nat, ch: char)
    requires PlainMark(ch) && Here(text, offset, [ch])
    ensures Reads(text, offset, [ch], [Mark([ch])])
  {
    var tail := text[offset..];
    assert tail[0] == text[offset..offset + 1][0] == ch;
    assert tail[..1] == [ch];
    assert StepAt(tail) == Take(Mark([ch]), 1);
  }

  lemma ColonsRead(text: string, offset: nat)
    requires Here(text, offset, "::")
    ensures Reads(text, offset, "::", [Mark("::")])
  {
    var tail := text[offset..];
    assert tail[..2] == text[offset..offset + 2];
    assert tail[0] == ':' && tail[1] == ':';
    assert StepAt(tail) == Take(Mark("::"), 2);
  }

  lemma SpaceReads(text: string, offset: nat)
    requires Here(text, offset, " ")
    ensures Reads(text, offset, " ", [])
  {
    var tail := text[offset..];
    assert tail[0] == text[offset..offset + 1][0] == ' ';
    assert StepAt(tail) == Skip(1);
    PrependNothing(LexFrom(text, offset + 1));
  }

  lemma NothingReads(text: string, offset: nat)
    requires offset <= |text|
    ensures Reads(text, offset, "", [])
  {
    PrependNothing(LexFrom(text, offset));
  }

  /** A character that is no part of a word ends one. */
  lemma EndsBefore(text: string, offset: nat, part: string)
    requires Here(text, offset, part) && part != "" && !InWord(part[0])
    ensures Ends(text, offset)
  {
    assert text[offset] == text[offset..offset + |part|][0];
  }

  function SegmentsText(segments: seq<string>): string {
    if segments == [] then "" else "::" + segments[0] + SegmentsText(segments[1..])
  }

  lemma {:induction false} PathTextIs(root: string, segments: seq<string>)
    ensures Join([root] + segments, "::") == root + SegmentsText(segments)
    decreases |segments|
  {
    if segments != [] {
      PathTextIs(segments[0], segments[1..]);
      assert ([root] + segments)[1..] == [segments[0]] + segments[1..];
    }
  }

  lemma {:induction false} SegmentsRead(text: string, offset: nat, segments: seq<string>)
    requires forall i :: 0 <= i < |segments| ==> ValidWord(segments[i])
    requires Here(text, offset, SegmentsText(segments)) && Ends(text, offset + |SegmentsText(segments)|)
    ensures Ends(text, offset)
    ensures Reads(text, offset, SegmentsText(segments), SegmentTokens(segments))
    decreases |segments|
  {
    hide Reads, ValidWord, Here, Ends;
    if segments == [] {
      EndsInside(text, offset);
      NothingReads(text, offset);
    } else {
      var word, later := segments[0], SegmentsText(segments[1..]);
      assert SegmentsText(segments) == "::" + (word + later);
      HereParts(text, offset, "::", word + later);
      HereParts(text, offset + 2, word, later);
      EndsBefore(text, offset, "::");
      ColonsRead(text, offset);
      SegmentsRead(text, offset + 2 + |word|, segments[1..]);
      WordReads(text, offset + 2, word);
      ReadsThen(text, offset + 2, word, [Word(word)], later, SegmentTokens(segments[1..]));
      ReadsThen(text, offset, "::", [Mark("::")], word + later, [Word(word)] + SegmentTokens(segments[1..]));
      assert [Mark("::")] + ([Word(word)] + SegmentTokens(segments[1..])) == SegmentTokens(segments);
    }
  }

  lemma PathReads(text: string, offset: nat, path: TypePath)
    requires ShapedPath(path) && Here(text, offset, PathText(path)) && Ends(text, offset + |PathText(path)|)
    ensures Reads(text, offset, PathText(path), PathTokens(path))
  {
    hide Reads;
    var root, later := path.root, SegmentsText(path.segments);
    PathTextIs(root, path.segments);
    HereParts(text, offset, root, later);
    SegmentsRead(text, offset + |root|, path.segments);
    if root[0] == '$' {
      var word := root[1..];
      assert root == "$" + word;
      HereParts(text, offset, "$", word);
      MarkReads(text, offset, '$');
      WordReads(text, offset + 1, word);
      ReadsThen(text, offset, "$", [Mark("$")], word, [Word(word)]);
      assert [Mark("$")] + [Word(word)] == [Mark("$"), Word(word)];
      ReadsThen(text, offset, root, [Mark("$"), Word(word)], later, SegmentTokens(path.segments));
    } else {
      WordReads(text, offset, root);
      ReadsThen(text, offset, root, [Word(root)], later, SegmentTokens(path.segments));
    }
  }

  lemma {:induction false} TypeReads(text: string, offset: nat, t: TypeExpr)
    requires Shaped(t) && Here(text, offset, TypeText(t)) && Ends(text, offset + |TypeText(t)|)
    ensures Reads(text, offset, TypeText(t), TypeTokens(t))
    decreases t, 1
  {
    hide Reads, ShapedPath, PathText, PathTokens, Join;
    match t
    case Tuple(items) => BracketsRead(text, offset, '(', items, ')');
    case Named(path, arguments) =>
      if arguments == [] {
        assert TypeText(t) == PathText(path) && TypeTokens(t) == PathTokens(path);
        PathReads(text, offset, path);
      } else {
        var first, later := PathText(path), "<" + Join(TextOfAll(arguments), ", ") + ">";
        HereParts(text, offset, first, later);
        EndsBefore(text, offset + |first|, later);
        PathReads(text, offset, path);
        BracketsRead(text, offset + |first|, '<', arguments, '>');
        ReadsThen(text, offset, first, PathTokens(path), later, [Mark("<")] + ListTokens(arguments) + [Mark(">")]);
      }
  }

  lemma {:induction false} BracketsRead(text: string, offset: nat, open_: char, items: seq<TypeExpr>, close: char)
    requires ShapedAll(items) && PlainMark(open_) && PlainMark(close)
    requires Here(text, offset, [open_] + Join(TextOfAll(items), ", ") + [close])
    ensures Reads(text, offset, [open_] + Join(TextOfAll(items), ", ") + [close],
                  [Mark([open_])] + ListTokens(items) + [Mark([close])])
    decreases items, 2
  {
    hide Reads, Join, ShapedAll, ListTokens, TextOfAll;
    var middle := Join(TextOfAll(items), ", ");
    HereParts(text, offset, [open_] + middle, [close]);
    HereParts(text, offset, [open_], middle);
    EndsBefore(text, offset + 1 + |middle|, [close]);
    MarkReads(text, offset, open_);
    ListReads(text, offset + 1, items);
    MarkReads(text, offset + 1 + |middle|, close);
    ReadsThen(text, offset, [open_], [Mark([open_])], middle, ListTokens(items));
    ReadsThen(text, offset, [open_] + middle, [Mark([open_])] + ListTokens(items), [close], [Mark([close])]);
  }

  lemma JoinStep(first: string, second: string, parts: seq<string>)
    ensures Join([first, second] + parts, ", ") == first + ("," + (" " + Join([second] + parts, ", ")))
  {
    hide Join;
    var all := [first, second] + parts;
    assert all[1..] == [second] + parts;
    assert ", " == "," + " ";
    assert Join(all, ", ") == first + ", " + Join(all[1..], ", ") by {
      JoinUnfolds(all);
    }
  }

  lemma JoinUnfolds(parts: seq<string>)
    requires |parts| > 1
    ensures Join(parts, ", ") == parts[0] + ", " + Join(parts[1..], ", ")
  {
  }

  lemma LongText(items: seq<TypeExpr>)
    requires |items| > 1
    ensures Join(TextOfAll(items), ", ") == TypeText(items[0]) + ("," + (" " + Join(TextOfAll(items[1..]), ", ")))
  {
    hide TypeText, Join, TextOfAll;
    var first, later := TypeText(items[0]), TextOfAll(items[1..]);
    TextUnfolds(items);
    assert [first] + later == [first, later[0]] + later[1..];
    assert [later[0]] + later[1..] == later;
    JoinStep(first, later[0], later[1..]);
  }

  lemma TextUnfolds(items: seq<TypeExpr>)
    requires items != []
    ensures TextOfAll(items) == [TypeText(items[0])] + TextOfAll(items[1..])
  {
  }

  lemma LongTokens(items: seq<TypeExpr>)
    requires |items| > 1
    ensures ListTokens(items) == TypeTokens(items[0]) + ([Mark(",")] + ([] + ListTokens(items[1..])))
  {
    hide TypeTokens;
  }

  lemma {:induction false} ListReads(text: string, offset: nat, items: seq<TypeExpr>)
    requires ShapedAll(items) && Here(text, offset, Join(TextOfAll(items), ", "))
    requires Ends(text, offset + |Join(TextOfAll(items), ", ")|)
    ensures Reads(text, offset, Join(TextOfAll(items), ", "), ListTokens(items))
    decreases items, 1
  {
    hide *;
    if items == [] {
      ShortList(items);
      EndsInside(text, offset);
      NothingReads(text, offset);
    } else if |items| == 1 {
      ShortList(items);
      TypeReads(text, offset, items[0]);
    } else {
      var first, later := TypeText(items[0]), Join(TextOfAll(items[1..]), ", ");
      ShapedParts(items);
      LongText(items);
      LongTokens(items);
      HereParts(text, offset, first, "," + (" " + later));
      HereParts(text, offset + |first|, ",", " " + later);
      HereParts(text, offset + |first| + 1, " ", later);
      CommaEnds(text, offset + |first|, " " + later);
      TypeReads(text, offset, items[0]);
      CommaReads(text, offset + |first|);
      SpaceReads(text, offset + |first| + 1);
      ListReads(text, offset + |first| + 2, items[1..]);
      var rest := ListTokens(items[1..]);
      ReadsThen(text, offset + |first| + 1, " ", [], later, rest);
      ReadsThen(text, offset + |first|, ",", [Mark(",")], " " + later, [] + rest);
      ReadsThen(text, offset, first, TypeTokens(items[0]), "," + (" " + later), [Mark(",")] + ([] + rest));
    }
  }

  lemma ShapedParts(items: seq<TypeExpr>)
    ensures items != [] ==> (ShapedAll(items) <==> Shaped(items[0]) && ShapedAll(items[1..]))
  {
  }

  lemma ShortList(items: seq<TypeExpr>)
    ensures items == [] ==> Join(TextOfAll(items), ", ") == "" && ListTokens(items) == []
    ensures |items| == 1 ==>
      Join(TextOfAll(items), ", ") == TypeText(items[0]) && ListTokens(items) == TypeTokens(items[0])
    ensures |items| == 1 ==> (ShapedAll(items) <==> Shaped(items[0]))
  {
    hide TypeText, TypeTokens;
    assert ShapedAll([]);
  }

  lemma CommaEnds(text: string, offset: nat, later: string)
    requires Here(text, offset, "," + later)
    ensures Ends(text, offset)
  {
    EndsBefore(text, offset, "," + later);
  }

  lemma CommaReads(text: string, offset: nat)
    requires Here(text, offset, ",")
    ensures Reads(text, offset, ",", [Mark(",")])
  {
    hide Reads, Here;
    MarkReads(text, offset, ',');
    assert [','] == ",";
  }

  lemma EndsInside(text: string, offset: nat)
    requires Ends(text, offset)
    ensures offset <= |text|
  {
  }

  /** The tokenizer recovers the tokens a printed expression is made of. */
  lemma PrintedTokens(t: TypeExpr)
    requires Shaped(t)
    ensures Lex(TypeText(t)) == Ok(TypeTokens(t))
  {
    var text := TypeText(t);
    assert text[0..|text|] == text;
    TypeReads(text, 0, t);
    LexDone(TypeTokens(t), text);
  }

  // ---------------------------------------------------------------- parsing printed tokens

  /** What may follow a type without being taken for part of it. */
  predicate Stops(rest: seq<Token>) {
    !At(rest, "::") && !At(rest, "<")
  }

  lemma SegmentParses(segment: string, later: seq<Token>)
    ensures ParseSegments([Mark("::"), Word(segment)] + later) == Prefixed([segment], ParseSegments(later))
  {
    var all := [Mark("::"), Word(segment)] + later;
    assert all[1..][0] == Word(segment) && all[1..][1..] == later;
    assert ParseWord(all[1..]) == Ok(Parsed(segment, later));
  }

  lemma SegmentTokensUnfold(segments: seq<string>, rest: seq<Token>)
    requires segments != []
    ensures SegmentTokens(segments) + rest == [Mark("::"), Word(segments[0])] + (SegmentTokens(segments[1..]) + rest)
  {
    var head, tail := [Mark("::"), Word(segments[0])], SegmentTokens(segments[1..]);
    assert (head + tail) + rest == head + (tail + rest);
  }

  lemma PrefixedParsed(head: string, segments: seq<string>, rest: seq<Token>)
    requires segments != [] && segments[0] == head
    ensures Prefixed([head], Ok(Parsed(segments[1..], rest))) == Ok(Parsed(segments, rest))
  {
    assert [head] + segments[1..] == segments;
  }

  lemma {:induction false} SegmentsParse(segments: seq<string>, rest: seq<Token>)
    requires !At(rest, "::")
    ensures ParseSegments(SegmentTokens(segments) + rest) == Ok(Parsed(segments, rest))
    decreases |segments|
  {
    if segments == [] {
      assert SegmentTokens(segments) + rest == rest;
    } else {
      hide *;
      var more := segments[1..];
      SegmentsParse(more, rest);
      SegmentTokensUnfold(segments, rest);
      SegmentParses(segments[0], SegmentTokens(more) + rest);
      PrefixedParsed(segments[0], segments, rest);
    }
  }

  lemma LocalPathParses(root: string, later: seq<Token>, segments: seq<string>, rest: seq<Token>)
    requires root != "$" && root != "self" && ParseSegments(later) == Ok(Parsed(segments, rest))
    ensures ParsePath([Word(root)] + later, true) == Ok(Parsed(TypePath(root, segments), rest))
  {
    hide ParseSegments;
    assert ([Word(root)] + later)[1..] == later;
  }

  lemma ExternalPathParses(word: string, later: seq<Token>, segments: seq<string>, rest: seq<Token>)
    requires ParseSegments(later) == Ok(Parsed(segments, rest))
    ensures ParsePath([Mark("$"), Word(word)] + later, true) == Ok(Parsed(TypePath("$" + word, segments), rest))
  {
    hide ParseSegments;
    var all := [Mark("$"), Word(word)] + later;
    assert all[1..][0] == Word(word) && all[1..][1..] == later;
    assert ParseWord(all[1..]) == Ok(Parsed(word, later));
    assert ("$" + word)[0] == '$' && "self"[0] == 's';
  }

  lemma PathParses(path: TypePath, rest: seq<Token>)
    requires ShapedPath(path) && path.root != "self" && !At(rest, "::")
    ensures ParsePath(PathTokens(path) + rest, true) == Ok(Parsed(path, rest))
  {
    assert path.root != "" && path.root != "$";
    hide ParseSegments, ParsePath, SegmentTokens, ValidWord, ShapedPath;
    var all, later := PathTokens(path) + rest, SegmentTokens(path.segments) + rest;
    SegmentsParse(path.segments, rest);
    if path.root[0] == '$' {
      assert all == [Mark("$"), Word(path.root[1..])] + later;
      assert path.root == "$" + path.root[1..];
      ExternalPathParses(path.root[1..], later, path.segments, rest);
    } else {
      assert all == [Word(path.root)] + later;
      LocalPathParses(path.root, later, path.segments, rest);
    }
  }

  /** A printed `self` path is not in the form the parser wants. */
  lemma SelfPathFails(path: TypePath, rest: seq<Token>)
    requires ShapedPath(path) && path.root == "self"
    ensures ParsePath(PathTokens(path) + rest, true).Err?
  {
    var all, later := PathTokens(path) + rest, SegmentTokens(path.segments) + rest;
    assert all == [Word("self")] + later && all[1..] == later;
    assert later[0] == Mark("::");
  }

  lemma FirstToken(t: TypeExpr, rest: seq<Token>)
    requires Shaped(t)
    ensures var all := TypeTokens(t) + rest;
      && all != [] && !all[0].Prose? && (all[0].text == "(" <==> t.Tuple?)
      && all[0].text != ")" && all[0].text != ">" && all[0].text != ","
  {
    hide ShapedAll, ListTokens, SegmentTokens;
    if t.Named? {
      assert StartsWord(t.path.root[0]) || t.path.root[0] == '$';
    }
  }

  /** Printed expressions parse back, unless they contain a `self` path. */
  lemma {:induction false} TypeParses(t: TypeExpr, rest: seq<Token>)
    requires Shaped(t) && Stops(rest)
    ensures SelfFree(t) ==> ParseType(TypeTokens(t) + rest) == Ok(Parsed(t, rest))
    ensures !SelfFree(t) ==> ParseType(TypeTokens(t) + rest).Err?
    decreases t, 1
  {
    hide ParseList, ParsePath, ShapedPath, ListTokens, PathTokens;
    var all := TypeTokens(t) + rest;
    FirstToken(t, rest);
    match t
    case Tuple(items) =>
      assert all[1..] == ListTokens(items) + [Mark(")")] + rest;
      ListParses(items, ")", rest);
    case Named(path, arguments) =>
      var later := if arguments == [] then rest else [Mark("<")] + (ListTokens(arguments) + [Mark(">")] + rest);
      assert all == PathTokens(path) + later;
      if path.root == "self" {
        SelfPathFails(path, later);
      } else {
        PathParses(path, later);
        assert SelfFreeAll([]);
        if arguments != [] {
          assert later[1..] == ListTokens(arguments) + [Mark(">")] + rest;
          ListParses(arguments, ">", rest);
        }
      }
  }

  lemma {:induction false} ListParses(items: seq<TypeExpr>, end: string, rest: seq<Token>)
    requires ShapedAll(items) && (end == ")" || end == ">")
    ensures SelfFreeAll(items) ==> ParseList(ListTokens(items) + [Mark(end)] + rest, end) == Ok(Parsed(items, rest))
    ensures !SelfFreeAll(items) ==> ParseList(ListTokens(items) + [Mark(end)] + rest, end).Err?
    decreases items, 0
  {
    hide ParseType, Shaped, SelfFree, TypeTokens;
    var all := ListTokens(items) + [Mark(end)] + rest;
    if items == [] {
      assert all == [Mark(end)] + rest && all[1..] == rest;
    } else {
      var later :=
        if |items| == 1 then [Mark(end)] + rest else [Mark(",")] + (ListTokens(items[1..]) + [Mark(end)] + rest);
      assert all == TypeTokens(items[0]) + later;
      FirstToken(items[0], later);
      TypeParses(items[0], later);
      assert SelfFreeAll(items) <==> SelfFree(items[0]) && SelfFreeAll(items[1..]);
      assert [items[0]] + items[1..] == items;
      if |items| == 1 {
        assert items[1..] == [] && SelfFreeAll([]) && [items[0]] == items;
        assert later[1..] == rest;
      } else {
        assert later[1..] == ListTokens(items[1..]) + [Mark(end)] + rest;
        ListParses(items[1..], end, rest);
      }
    }
  }

  // ---------------------------------------------------------------- what the parser can produce

  predicate WordsValid(tokens: seq<Token>) {
    forall i :: 0 <= i < |tokens| && tokens[i].Word? ==> ValidWord(tokens[i].text)
  }

  lemma StepWordValid(tail: string)
    requires tail != ""
    ensures var step := StepAt(tail); step.Take? && step.token.Word? ==> ValidWord(step.token.text)
  {
  }

  lemma WordsValidCons(token: Token, later: Result<seq<Token>, LexError>)
    requires token.Word? ==> ValidWord(token.text)
    requires later.Ok? ==> WordsValid(later.value)
    ensures Prepend([token], later).Ok? ==> WordsValid(Prepend([token], later).value)
  {
    hide ValidWord;
  }

  lemma {:induction false} LexedWordsValid(text: string, offset: nat)
    requires offset <= |text|
    ensures LexFrom(text, offset).Ok? ==> WordsValid(LexFrom(text, offset).value)
    decreases |text| - offset
  {
    hide StepAt, ValidWord, WordsValid, Prepend, LexFrom;
    if offset == |text| {
      NoWordsLeft(text);
    } else {
      var step := StepAt(text[offset..]);
      StepWordValid(text[offset..]);
      LexStep([], text, offset);
      PrependNothing(LexFrom(text, offset));
      if !step.Fail? {
        var later := LexFrom(text, offset + step.length);
        LexedWordsValid(text, offset + step.length);
        PrependNothing(later);
        if step.Take? {
          assert [] + [step.token] == [step.token];
          WordsValidCons(step.token, later);
        }
      }
    }
  }

  lemma NoWordsLeft(text: string)
    ensures LexFrom(text, |text|) == Ok([]) && WordsValid([])
  {
  }

  lemma {:induction false} SegmentsShaped(rest: seq<Token>)
    requires WordsValid(rest)
    ensures var r := ParseSegments(rest);
      r.Ok? ==> WordsValid(r.value.rest) && forall i :: 0 <= i < |r.value.value| ==> ValidWord(r.value.value[i])
    decreases |rest|
  {
    hide ValidWord;
    if At(rest, "::") && ParseWord(rest[1..]).Ok? {
      SegmentsShaped(ParseWord(rest[1..]).value.rest);
    }
  }

  lemma WordShaped(rest: seq<Token>)
    requires WordsValid(rest)
    ensures var r := ParseWord(rest); r.Ok? ==> ValidWord(r.value.value) && WordsValid(r.value.rest)
  {
  }

  lemma PathShaped(rest: seq<Token>)
    requires WordsValid(rest)
    ensures var r := ParsePath(rest, true); r.Ok? ==> ShapedPath(r.value.value) && WordsValid(r.value.rest)
  {
    hide ParseSegments, ValidWord, WordsValid, ParseWord;
    var external := At(rest, "$");
    var start := if external then rest[1..] else rest;
    TailValid(rest);
    WordShaped(start);
    var word := ParseWord(start);
    if word.Ok? {
      SegmentsShaped(word.value.rest);
      TailValid(word.value.rest);
      if At(word.value.rest, ".") {
        WordShaped(word.value.rest[1..]);
        var first := ParseWord(word.value.rest[1..]);
        if first.Ok? {
          SegmentsShaped(first.value.rest);
        }
      }
      if external {
        assert ("$" + word.value.value)[1..] == word.value.value;
      }
    }
  }

  lemma TailValid(rest: seq<Token>)
    requires WordsValid(rest)
    ensures rest != [] ==> WordsValid(rest[1..])
  {
  }

  lemma {:induction false} TypeShaped(rest: seq<Token>)
    requires WordsValid(rest)
    ensures var r := ParseType(rest); r.Ok? ==> Shaped(r.value.value) && WordsValid(r.value.rest)
    decreases |rest|, 0
  {
    hide ParsePath, ParseList, WordsValid, ShapedPath;
    TailValid(rest);
    if At(rest, "(") {
      ListShaped(rest[1..], ")");
    } else {
      PathShaped(rest);
      var path := ParsePath(rest, true);
      if path.Ok? {
        TailValid(path.value.rest);
        if At(path.value.rest, "<") {
          ListShaped(path.value.rest[1..], ">");
        }
      }
    }
  }

  lemma {:induction false} ListShaped(rest: seq<Token>, end: string)
    requires WordsValid(rest)
    ensures var r := ParseList(rest, end); r.Ok? ==> ShapedAll(r.value.value) && WordsValid(r.value.rest)
    decreases |rest|, 1
  {
    hide ParseType, WordsValid, Shaped;
    TailValid(rest);
    if !At(rest, end) {
      TypeShaped(rest);
      var item := ParseType(rest);
      if item.Ok? {
        TailValid(item.value.rest);
        if !At(item.value.rest, end) && At(item.value.rest, ",") {
          ListShaped(item.value.rest[1..], end);
        }
      }
    }
  }

  // ---------------------------------------------------------------- the round trip

  /** Reading gives back what was printed exactly for expressions made of identifiers without a `self` path. */
  lemma RoundTripIff(t: TypeExpr)
    ensures Read(TypeText(t)) == Some(t) <==> Shaped(t) && SelfFree(t)
  {
    hide Shaped, SelfFree, TypeText, TypeTokens, ParseType, WordsValid;
    if Shaped(t) {
      PrintedTokens(t);
      TypeParses(t, []);
      assert TypeTokens(t) + [] == TypeTokens(t);
    } else {
      ReadIsShaped(TypeText(t));
    }
  }

  lemma ReadIsShaped(text: string)
    ensures Read(text).Some? ==> Shaped(Read(text).value)
  {
    LexedWordsValid(text, 0);
    if Lex(text).Ok? {
      TypeShaped(Lex(text).value);
    }
  }

  /** Reprinting what was read from any text, whatever its spacing, comments and trailing
      commas, reads the same again, unless it holds a `self` path. */
  lemma ReprintIsStable(text: string)
    requires Read(text).Some?
    ensures Read(TypeText(Read(text).value)) == Read(text) <==> SelfFree(Read(text).value)
  {
    ReadIsShaped(text);
    RoundTripIff(Read(text).value);
  }

  lemma DotReads(text: string, offset: nat)
    requires Here(text, offset, ".")
    ensures Reads(text, offset, ".", [Mark(".")])
  {
    hide FindQuotes, LineLength, WordLength;
    var tail := text[offset..];
    assert tail[0] == text[offset..offset + 1][0] == '.';
    assert tail[..1] == ".";
    assert StepAt(tail) == Take(Mark("."), 1);
  }

  lemma SelfTokens()
    ensures Lex("self.x") == Ok([Word("self"), Mark("."), Word("x")])
  {
    hide Reads, LexFrom, StepAt;
    var text := "self" + ("." + "x");
    assert text[0..6] == text;
    HereParts(text, 0, "self", "." + "x");
    HereParts(text, 4, ".", "x");
    assert text[4] == text[4..5][0] == '.';
    WordReads(text, 0, "self");
    DotReads(text, 4);
    WordReads(text, 5, "x");
    ReadsThen(text, 4, ".", [Mark(".")], "x", [Word("x")]);
    ReadsThen(text, 0, "self", [Word("self")], "." + "x", [Mark(".")] + [Word("x")]);
    assert text == "self.x";
    ReadsAll(text, [Word("self")] + ([Mark(".")] + [Word("x")]));
    assert [Word("self")] + ([Mark(".")] + [Word("x")]) == [Word("self"), Mark("."), Word("x")];
  }

  lemma ReadsAll(text: string, tokens: seq<Token>)
    requires Reads(text, 0, text, tokens)
    ensures Lex(text) == Ok(tokens)
  {
    LexDone(tokens, text);
  }

  /** A type the parser accepts and whose printed form it refuses. */
  lemma SelfPathIsNotReread()
    ensures var t := Named(TypePath("self", ["x"]), []);
      Read("self.x") == Some(t) && TypeText(t) == "self::x" && Read(TypeText(t)) == None
  {
    hide Lex, LexFrom;
    var t := Named(TypePath("self", ["x"]), []);
    var tokens := [Word("self"), Mark("."), Word("x")];
    SelfTokens();
    assert tokens[1..] == [Mark("."), Word("x")] && tokens[1..][1..] == [Word("x")] && [Word("x")][1..] == [];
    assert ParseSegments([]) == Ok(Parsed([], []));
    assert ParseWord(tokens) == Ok(Parsed("self", [Mark("."), Word("x")]));
    assert ParseWord([Word("x")]) == Ok(Parsed("x", []));
    assert ["x"] + [] == ["x"];
    assert ParsePath(tokens, true) == Ok(Parsed(TypePath("self", ["x"]), []));
    assert ParseType(tokens) == Ok(Parsed(t, []));
    PathTextIs("self", ["x"]);
    assert SegmentsText(["x"]) == "::" + "x" + SegmentsText([]);
    assert TypeText(t) == "self::x";
    assert Shaped(t) && !SelfFree(t);
    PrintedTokens(t);
    TypeParses(t, []);
    assert TypeTokens(t) + [] == TypeTokens(t);
  }
}

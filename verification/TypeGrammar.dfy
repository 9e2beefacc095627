/** The grammar of type expressions, independent of the parser: what counts as a spelling of a type. */
module TypeGrammar {
  import opened Wrappers
  import opened TypeSyntax
  import opened TypePrinting

  // ---------------------------------------------------------------- spellings

  /** `$pkg::a`, `crate::a` and `name::a` in full; what `self` selects comes after a dot. */
  function PathSpelling(path: TypePath): seq<Token> {
    if path.root == "self" && path.segments != [] then
      [Word("self"), Mark("."), Word(path.segments[0])] + SegmentTokens(path.segments[1..])
    else PathTokens(path)
  }

  /** Outside types a path starts at a package, the crate or the receiver. */
  predicate Rooted(path: TypePath) {
    path.root != "" && (path.root[0] == '$' || path.root == "crate" || path.root == "self")
  }

  /** A list between two delimiters. */
  predicate Between(tokens: seq<Token>, open: string, close: string) {
    |tokens| >= 2 && tokens[0] == Mark(open) && tokens[|tokens| - 1] == Mark(close)
  }

  function Inside(tokens: seq<Token>): seq<Token>
    requires |tokens| >= 2
  {
    tokens[1..|tokens| - 1]
  }

  /** `w` spells `t`. An empty argument list is as good as none. */
  ghost predicate Spells(t: TypeExpr, w: seq<Token>)
    decreases t
  {
    match t
    case Tuple(items) => Between(w, "(", ")") && SpellsList(items, Inside(w))
    case Named(path, arguments) =>
      var p := PathSpelling(path);
      && ShapedPath(path) && p <= w
      && ((w[|p|..] == [] && arguments == [])
          || (Between(w[|p|..], "<", ">") && SpellsList(arguments, Inside(w[|p|..]))))
  }

  /** A comma after every item but perhaps the last. */
  ghost predicate SpellsList(items: seq<TypeExpr>, w: seq<Token>)
    decreases items, 1
  {
    if items == [] then w == [] else exists n: nat :: SpellsItem(items, w, n)
  }

  /** The first item takes `n` tokens. */
  ghost predicate SpellsItem(items: seq<TypeExpr>, w: seq<Token>, n: nat)
    requires items != []
    decreases items, 0
  {
    && n <= |w| && Spells(items[0], w[..n])
    && ((|items| == 1 && n == |w|) || (n < |w| && w[n] == Mark(",") && SpellsList(items[1..], w[n + 1..])))
  }

  /** Nothing after a name without arguments belongs to it. */
  predicate Complete(w: seq<Token>, rest: seq<Token>) {
    w != [] && w[|w| - 1].Word? ==> Stops(rest)
  }

  // ---------------------------------------------------------------- tokens of lexed text

  /** In lexed text no word reads like a mark. */
  lemma AtIsMark(rest: seq<Token>, text: string)
    requires WordsValid(rest) && text != "" && !StartsWord(text[0])
    ensures At(rest, text) ==> rest[0] == Mark(text) && rest == [Mark(text)] + rest[1..]
  {
  }

  lemma WordIsTaken(rest: seq<Token>)
    requires WordsValid(rest)
    ensures var r := ParseWord(rest);
      r.Ok? ==> rest == [Word(r.value.value)] + r.value.rest && ValidWord(r.value.value) && WordsValid(r.value.rest)
  {
  }

  // ---------------------------------------------------------------- paths

  lemma {:induction false} SegmentsAre(rest: seq<Token>)
    requires WordsValid(rest)
    ensures var r := ParseSegments(rest);
      r.Ok? ==> rest == SegmentTokens(r.value.value) + r.value.rest && !At(r.value.rest, "::")
    decreases |rest|
  {
    AtIsMark(rest, "::");
    TailValid(rest);
    if !At(rest, "::") {
      assert SegmentTokens([]) + rest == rest;
    } else {
      hide WordsValid, ValidWord, At, SegmentTokens;
      WordIsTaken(rest[1..]);
      var word := ParseWord(rest[1..]);
      if word.Ok? {
        SegmentsAre(word.value.rest);
        var more := ParseSegments(word.value.rest);
        if more.Ok? {
          var segments := [word.value.value] + more.value.value;
          SegmentTokensUnfold(segments, more.value.rest);
          assert segments[1..] == more.value.value;
          assert [Mark("::")] + ([Word(word.value.value)] + word.value.rest) ==
            [Mark("::"), Word(word.value.value)] + word.value.rest;
        }
      }
    }
  }

  lemma SelfReads(rest: seq<Token>, first: string, later: seq<Token>, localType: bool)
    requires rest == [Word("self"), Mark("."), Word(first)] + later
    ensures ParsePath(rest, localType) ==
      match ParseSegments(later)
      case Err(error) => Err(error)
      case Ok(more) => Ok(Parsed(TypePath("self", [first] + more.value), more.rest))
  {
    hide ParseSegments;
    assert rest[1..] == [Mark("."), Word(first)] + later && rest[1..][1..] == [Word(first)] + later;
    assert ParseWord([Word(first)] + later) == Ok(Parsed(first, later)) by {
      assert ([Word(first)] + later)[1..] == later;
    }
  }

  lemma SelfPathParses(path: TypePath, rest: seq<Token>, localType: bool)
    requires ShapedPath(path) && path.root == "self" && !At(rest, "::")
    ensures ParsePath(PathSpelling(path) + rest, localType) == Ok(Parsed(path, rest))
  {
    assert path.segments != [];
    hide ParsePath, ParseSegments, SegmentTokens, ShapedPath;
    var first, more := path.segments[0], path.segments[1..];
    SegmentsParse(more, rest);
    assert PathSpelling(path) + rest == [Word("self"), Mark("."), Word(first)] + (SegmentTokens(more) + rest);
    SelfReads(PathSpelling(path) + rest, first, SegmentTokens(more) + rest, localType);
    assert [first] + more == path.segments;
  }

  lemma OtherPathParses(path: TypePath, rest: seq<Token>)
    requires ShapedPath(path) && path.root != "self" && Rooted(path) && !At(rest, "::")
    ensures ParsePath(PathSpelling(path) + rest, false) == Ok(Parsed(path, rest))
  {
    PathParses(path, rest);
    hide ParseSegments, SegmentTokens, ShapedPath;
    var all := PathSpelling(path) + rest;
    assert path.root[0] == '$' ==> all[0] == Mark("$") && all[1..][0] == Word(path.root[1..]);
  }

  /** Where the segments after `head` lead. */
  lemma SegmentsFollow(head: seq<Token>, rest: seq<Token>)
    requires WordsValid(rest)
    ensures var r := ParseSegments(rest);
      r.Ok? ==>
        && head + rest == (head + SegmentTokens(r.value.value)) + r.value.rest
        && WordsValid(r.value.rest) && !At(r.value.rest, "::")
        && forall i :: 0 <= i < |r.value.value| ==> ValidWord(r.value.value[i])
  {
    hide WordsValid, SegmentTokens, ParseSegments, ValidWord, At;
    SegmentsShaped(rest);
    SegmentsAre(rest);
  }

  lemma SelfIsTaken(rest: seq<Token>, localType: bool)
    requires WordsValid(rest) && rest != [] && rest[0] == Word("self")
    ensures PathFollows(rest, localType)
  {
    hide WordsValid, SegmentTokens, ParseSegments;
    assert ValidWord("self");
    TailValid(rest);
    AtIsMark(rest[1..], ".");
    if At(rest[1..], ".") {
      var after := rest[1..][1..];
      TailValid(rest[1..]);
      WordIsTaken(after);
      if ParseWord(after).Ok? {
        SelfSelects(rest, ParseWord(after).value.value, ParseWord(after).value.rest, localType);
      }
    }
  }

  lemma SelfSelects(rest: seq<Token>, first: string, later: seq<Token>, localType: bool)
    requires ValidWord(first) && WordsValid(later) && rest == [Word("self"), Mark("."), Word(first)] + later
    ensures PathFollows(rest, localType)
  {
    SelfReads(rest, first, later, localType);
    assert ValidWord("self");
    hide ParsePath, WordsValid, ValidWord, SegmentTokens, ParseSegments, At;
    SegmentsFollow([Word("self"), Mark("."), Word(first)], later);
    if ParseSegments(later).Ok? {
      var more := ParseSegments(later).value.value;
      assert ([first] + more)[1..] == more;
    }
  }

  lemma ExternalIsTaken(rest: seq<Token>, localType: bool)
    requires WordsValid(rest) && At(rest, "$")
    ensures PathFollows(rest, localType)
  {
    hide WordsValid, SegmentTokens, ParseSegments;
    AtIsMark(rest, "$");
    TailValid(rest);
    WordIsTaken(rest[1..]);
    var word := ParseWord(rest[1..]);
    if word.Ok? {
      var root := "$" + word.value.value;
      var head := [Mark("$"), Word(root[1..])];
      assert root[1..] == word.value.value && ValidRoot(root);
      hide ValidWord;
      SegmentsFollow(head, word.value.rest);
      assert rest == head + word.value.rest;
    }
  }

  lemma PlainIsTaken(rest: seq<Token>, localType: bool)
    requires WordsValid(rest) && rest != [] && rest[0] != Word("self") && !At(rest, "$")
    ensures PathFollows(rest, localType)
  {
    hide WordsValid, SegmentTokens, ParseSegments;
    WordIsTaken(rest);
    var word := ParseWord(rest);
    if word.Ok? {
      var root := word.value.value;
      assert StartsWord(root[0]) && ValidRoot(root);
      hide ValidWord;
      SegmentsFollow([Word(root)], word.value.rest);
    }
  }

  /** A path that was read is spelled by the tokens taken, and nothing more belongs to it. */
  predicate PathFollows(rest: seq<Token>, localType: bool) {
    var r := ParsePath(rest, localType);
    r.Ok? ==>
      && ShapedPath(r.value.value) && rest == PathSpelling(r.value.value) + r.value.rest && WordsValid(r.value.rest)
      && !At(r.value.rest, "::") && (localType || Rooted(r.value.value))
  }

  lemma PathIsTaken(rest: seq<Token>, localType: bool)
    requires WordsValid(rest)
    ensures PathFollows(rest, localType)
  {
    if rest != [] {
      if rest[0] == Word("self") {
        SelfIsTaken(rest, localType);
      } else if At(rest, "$") {
        ExternalIsTaken(rest, localType);
      } else {
        PlainIsTaken(rest, localType);
      }
    }
  }

  /** A path is read exactly where its spelling stands and cannot go on. */
  lemma PathIff(rest: seq<Token>, localType: bool, path: TypePath, later: seq<Token>)
    requires WordsValid(rest)
    ensures ParsePath(rest, localType) == Ok(Parsed(path, later)) <==>
      && ShapedPath(path) && rest == PathSpelling(path) + later && !At(later, "::") && (localType || Rooted(path))
  {
    hide ParsePath, PathSpelling, ShapedPath, WordsValid, At;
    PathIsTaken(rest, localType);
    if ShapedPath(path) && rest == PathSpelling(path) + later && !At(later, "::") && (localType || Rooted(path)) {
      PathSpellingParses(path, later, localType);
    }
  }

  lemma PathSpellingParses(path: TypePath, rest: seq<Token>, localType: bool)
    requires ShapedPath(path) && !At(rest, "::") && (localType || Rooted(path))
    ensures ParsePath(PathSpelling(path) + rest, localType) == Ok(Parsed(path, rest))
  {
    hide ParsePath, At, ShapedPath;
    if path.root == "self" {
      SelfPathParses(path, rest, localType);
    } else if localType {
      PathParses(path, rest);
    } else {
      OtherPathParses(path, rest);
    }
  }

  // ---------------------------------------------------------------- every spelling is read

  lemma FirstSpelled(t: TypeExpr, w: seq<Token>)
    requires Spells(t, w)
    ensures w != [] && !w[0].Prose? && (w[0].text == "(" <==> t.Tuple?)
    ensures w[0].text != ")" && w[0].text != ">" && w[0].text != ","
  {
    hide SpellsList, SegmentTokens;
    if t.Named? {
      assert StartsWord(t.path.root[0]) || t.path.root[0] == '$';
    }
  }

  /** Every spelling of a type is read as that type. */
  lemma {:induction false} SpellingParses(t: TypeExpr, w: seq<Token>, rest: seq<Token>)
    requires Spells(t, w) && Complete(w, rest)
    ensures ParseType(w + rest) == Ok(Parsed(t, rest))
    decreases t, 1
  {
    hide ParseList, ParsePath, ShapedPath, PathSpelling;
    FirstSpelled(t, w);
    var all := w + rest;
    match t
    case Tuple(items) =>
      assert all[1..] == Inside(w) + [Mark(")")] + rest;
      ListSpellingParses(items, Inside(w), ")", rest);
    case Named(path, arguments) =>
      var p := PathSpelling(path);
      var later := w[|p|..];
      assert all == p + (later + rest);
      if Between(later, "<", ">") && SpellsList(arguments, Inside(later)) {
        PathSpellingParses(path, later + rest, true);
        assert (later + rest)[1..] == Inside(later) + [Mark(">")] + rest;
        ListSpellingParses(arguments, Inside(later), ">", rest);
      } else {
        assert w == p && later + rest == rest;
        PathEndsInWord(path);
        PathSpellingParses(path, rest, true);
      }
  }

  lemma {:induction false} ListSpellingParses(items: seq<TypeExpr>, w: seq<Token>, end: string, rest: seq<Token>)
    requires SpellsList(items, w) && (end == ")" || end == ">")
    ensures ParseList(w + [Mark(end)] + rest, end) == Ok(Parsed(items, rest))
    decreases items, 1
  {
    hide SpellsItem;
    if items == [] {
      assert w + [Mark(end)] + rest == [Mark(end)] + rest;
      NothingParses(end, rest);
    } else {
      var n: nat :| SpellsItem(items, w, n);
      ItemSpellingParses(items, w, n, end, rest);
    }
  }

  lemma ItemSpellingParses(items: seq<TypeExpr>, w: seq<Token>, n: nat, end: string, rest: seq<Token>)
    requires items != [] && SpellsItem(items, w, n) && (end == ")" || end == ">")
    ensures ParseList(w + [Mark(end)] + rest, end) == Ok(Parsed(items, rest))
    decreases items, 0
  {
    hide ParseType, ParseList, Spells, SpellsList;
    var all := w + [Mark(end)] + rest;
    FirstSpelled(items[0], w[..n]);
    if |items| == 1 && n == |w| {
      assert w[..n] == w && [items[0]] == items;
      SpellingParses(items[0], w, [Mark(end)] + rest);
      assert all == w + ([Mark(end)] + rest);
      LastParses(items[0], all, end, rest);
    } else {
      var more := w[n + 1..] + [Mark(end)] + rest;
      SpellingParses(items[0], w[..n], [Mark(",")] + more);
      ListSpellingParses(items[1..], w[n + 1..], end, rest);
      assert all == w[..n] + ([Mark(",")] + more);
      NextParses(items[0], all, more, items[1..], end, rest);
      assert [items[0]] + items[1..] == items;
    }
  }

  lemma NothingParses(end: string, rest: seq<Token>)
    ensures ParseList([Mark(end)] + rest, end) == Ok(Parsed([], rest))
  {
    assert ([Mark(end)] + rest)[1..] == rest;
  }

  lemma LastParses(item: TypeExpr, all: seq<Token>, end: string, rest: seq<Token>)
    requires !At(all, end) && ParseType(all) == Ok(Parsed(item, [Mark(end)] + rest))
    ensures ParseList(all, end) == Ok(Parsed([item], rest))
  {
    hide ParseType;
    assert ([Mark(end)] + rest)[1..] == rest;
  }

  lemma NextParses(
      item: TypeExpr, all: seq<Token>, later: seq<Token>, more: seq<TypeExpr>, end: string, rest: seq<Token>)
    requires !At(all, end) && end != "," && ParseType(all) == Ok(Parsed(item, [Mark(",")] + later))
    requires ParseList(later, end) == Ok(Parsed(more, rest))
    ensures ParseList(all, end) == Ok(Parsed([item] + more, rest))
  {
    hide ParseType;
    assert ([Mark(",")] + later)[1..] == later;
  }

  lemma PathEndsInWord(path: TypePath)
    requires ShapedPath(path)
    ensures var p := PathSpelling(path); p != [] && p[|p| - 1].Word?
  {
    SegmentsEndInWord(path.segments);
    if path.segments != [] {
      SegmentsEndInWord(path.segments[1..]);
    }
  }

  lemma {:induction false} SegmentsEndInWord(segments: seq<string>)
    ensures var p := SegmentTokens(segments); p != [] ==> p[|p| - 1].Word?
  {
    if segments != [] {
      SegmentsEndInWord(segments[1..]);
    }
  }

  // ---------------------------------------------------------------- whatever is read is a spelling

  /** The tokens taken spell the type, and nothing after them belongs to it. */
  ghost predicate TypeFollows(rest: seq<Token>) {
    var r := ParseType(rest);
    r.Ok? ==> TypeSplit(rest, r.value.value, r.value.rest)
  }

  ghost predicate TypeSplit(rest: seq<Token>, t: TypeExpr, later: seq<Token>) {
    && |later| <= |rest| && rest == rest[..|rest| - |later|] + later && WordsValid(later)
    && Spells(t, rest[..|rest| - |later|]) && Complete(rest[..|rest| - |later|], later)
  }

  ghost predicate ListSplit(rest: seq<Token>, items: seq<TypeExpr>, end: string, later: seq<Token>) {
    && |later| < |rest| && WordsValid(later)
    && var n := |rest| - |later| - 1;
      rest == rest[..n] + [Mark(end)] + later && SpellsList(items, rest[..n])
  }

  lemma {:induction false} TypeIsTaken(rest: seq<Token>)
    requires WordsValid(rest)
    ensures TypeFollows(rest)
    decreases |rest|, 0
  {
    hide ParsePath, ParseList, WordsValid, ShapedPath, PathSpelling, TypeSplit, ListSplit;
    AtIsMark(rest, "(");
    TailValid(rest);
    if At(rest, "(") {
      ListIsTaken(rest[1..], ")");
      var items := ParseList(rest[1..], ")");
      if items.Ok? {
        TupleSplit(rest, items.value.value, items.value.rest);
      }
    } else {
      PathIsTaken(rest, true);
      var path := ParsePath(rest, true);
      if path.Ok? {
        var after := path.value.rest;
        AtIsMark(after, "<");
        TailValid(after);
        if At(after, "<") {
          ListIsTaken(after[1..], ">");
          var arguments := ParseList(after[1..], ">");
          if arguments.Ok? {
            NamedSplit(rest, path.value.value, after, arguments.value.value, arguments.value.rest);
          }
        } else {
          NameSplit(rest, path.value.value, after);
        }
      }
    }
  }

  lemma TupleSplit(rest: seq<Token>, items: seq<TypeExpr>, later: seq<Token>)
    requires rest != [] && rest[0] == Mark("(") && ListSplit(rest[1..], items, ")", later)
    ensures TypeSplit(rest, Tuple(items), later)
  {
    hide WordsValid, SpellsList;
    var v := rest[1..][..|rest| - |later| - 2];
    var w := [Mark("(")] + v + [Mark(")")];
    assert rest == w + later && rest[..|w|] == w && Inside(w) == v;
  }

  lemma NamedSplit(
      rest: seq<Token>, path: TypePath, after: seq<Token>, arguments: seq<TypeExpr>, later: seq<Token>)
    requires ShapedPath(path) && rest == PathSpelling(path) + after
    requires after != [] && after[0] == Mark("<") && ListSplit(after[1..], arguments, ">", later)
    ensures TypeSplit(rest, Named(path, arguments), later)
  {
    hide WordsValid, SpellsList, ShapedPath, PathSpelling;
    var p, v := PathSpelling(path), after[1..][..|after| - |later| - 2];
    var u := [Mark("<")] + v + [Mark(">")];
    assert after == u + later && Inside(u) == v;
    assert rest == (p + u) + later && rest[..|p + u|] == p + u && (p + u)[|p|..] == u;
  }

  lemma NameSplit(rest: seq<Token>, path: TypePath, after: seq<Token>)
    requires ShapedPath(path) && rest == PathSpelling(path) + after && WordsValid(after) && Stops(after)
    ensures TypeSplit(rest, Named(path, []), after)
  {
    hide WordsValid, ShapedPath, PathSpelling, Stops;
    assert rest[..|rest| - |after|] == PathSpelling(path);
  }

  lemma {:induction false} ListIsTaken(rest: seq<Token>, end: string)
    requires WordsValid(rest) && (end == ")" || end == ">")
    ensures var r := ParseList(rest, end); r.Ok? ==> ListSplit(rest, r.value.value, end, r.value.rest)
    decreases |rest|, 1
  {
    hide ParseType, WordsValid, TypeSplit, ListSplit;
    AtIsMark(rest, end);
    TailValid(rest);
    if At(rest, end) {
      NoneSplit(rest, end);
    } else {
      TypeIsTaken(rest);
      var item := ParseType(rest);
      if item.Ok? {
        var after := item.value.rest;
        assert WordsValid(after) by { SplitValid(rest, item.value.value, after); }
        AtIsMark(after, end);
        AtIsMark(after, ",");
        TailValid(after);
        if At(after, end) {
          OneSplit(rest, item.value.value, end, after);
        } else if At(after, ",") {
          ListIsTaken(after[1..], end);
          var more := ParseList(after[1..], end);
          if more.Ok? {
            MoreSplit(rest, item.value.value, after, more.value.value, end, more.value.rest);
          }
        }
      }
    }
  }

  lemma SplitValid(rest: seq<Token>, t: TypeExpr, later: seq<Token>)
    requires TypeSplit(rest, t, later)
    ensures WordsValid(later) && |later| <= |rest| && rest == rest[..|rest| - |later|] + later
    ensures Spells(t, rest[..|rest| - |later|])
  {
  }

  lemma NoneSplit(rest: seq<Token>, end: string)
    requires WordsValid(rest) && rest != [] && rest[0] == Mark(end)
    ensures ListSplit(rest, [], end, rest[1..])
  {
    assert rest == [] + [Mark(end)] + rest[1..];
  }

  lemma OneSplit(rest: seq<Token>, item: TypeExpr, end: string, after: seq<Token>)
    requires TypeSplit(rest, item, after) && after != [] && after[0] == Mark(end)
    ensures ListSplit(rest, [item], end, after[1..])
  {
    hide WordsValid, Spells;
    TailValid(after);
    var w := rest[..|rest| - |after|];
    OneSpelled(item, w);
    assert rest == w + [Mark(end)] + after[1..];
  }

  lemma MoreSplit(
      rest: seq<Token>, item: TypeExpr, after: seq<Token>, more: seq<TypeExpr>, end: string, later: seq<Token>)
    requires TypeSplit(rest, item, after) && after != [] && after[0] == Mark(",")
    requires ListSplit(after[1..], more, end, later)
    ensures ListSplit(rest, [item] + more, end, later)
  {
    hide WordsValid, Spells, SpellsList;
    var v, u := rest[..|rest| - |after|], after[1..][..|after| - |later| - 2];
    var w := v + [Mark(",")] + u;
    assert after == [Mark(",")] + after[1..];
    PartsJoin(v, u, end, later);
    NextSpelled(item, v, more, u);
  }

  lemma PartsJoin(v: seq<Token>, u: seq<Token>, end: string, later: seq<Token>)
    ensures var w := v + [Mark(",")] + u;
      var all := v + ([Mark(",")] + (u + [Mark(end)] + later));
      && all == w + [Mark(end)] + later && |all| - |later| - 1 == |w| && all[..|w|] == w
      && w[..|v|] == v && w[|v|] == Mark(",") && w[|v| + 1..] == u
  {
  }

  lemma OneSpelled(item: TypeExpr, w: seq<Token>)
    requires Spells(item, w)
    ensures SpellsList([item], w)
  {
    assert w[..|w|] == w;
    assert SpellsItem([item], w, |w|);
  }

  lemma NextSpelled(item: TypeExpr, v: seq<Token>, more: seq<TypeExpr>, u: seq<Token>)
    requires Spells(item, v) && SpellsList(more, u)
    ensures SpellsList([item] + more, v + [Mark(",")] + u)
  {
    hide Spells;
    var w := v + [Mark(",")] + u;
    assert ([item] + more)[1..] == more && w[..|v|] == v && w[|v| + 1..] == u;
    assert SpellsItem([item] + more, w, |v|);
  }

  // ---------------------------------------------------------------- the parser decides the grammar

  /** The parser reads a type exactly where a spelling of it stands and cannot go on. */
  lemma TypeIff(rest: seq<Token>, t: TypeExpr, later: seq<Token>)
    requires WordsValid(rest)
    ensures ParseType(rest) == Ok(Parsed(t, later)) <==>
      exists w :: rest == w + later && Spells(t, w) && Complete(w, later)
  {
    hide ParseType, Spells, WordsValid, Complete;
    TypeIsTaken(rest);
    if w :| rest == w + later && Spells(t, w) && Complete(w, later) {
      SpellingParses(t, w, later);
    }
  }

  /** A whole text reads as a type exactly when its tokens spell that type, and then as no other. */
  lemma ReadIff(text: string, t: TypeExpr)
    ensures Read(text) == Some(t) <==> Lex(text).Ok? && Spells(t, Lex(text).value)
  {
    hide ParseType, Spells, Lex;
    if Lex(text).Ok? {
      var tokens := Lex(text).value;
      LexWordsValid(text);
      TypeIff(tokens, t, []);
      assert forall w :: tokens == w + [] ==> w == tokens;
      assert tokens == tokens + [];
    }
  }

  lemma LexWordsValid(text: string)
    ensures Lex(text).Ok? ==> WordsValid(Lex(text).value)
  {
    LexedWordsValid(text, 0);
  }

  /** No tokens spell two types. */
  lemma SpelledOnce(t: TypeExpr, u: TypeExpr, w: seq<Token>)
    requires Spells(t, w) && Spells(u, w)
    ensures t == u
  {
    assert Complete(w, []);
    SpellingParses(t, w, []);
    SpellingParses(u, w, []);
  }

  // ---------------------------------------------------------------- where reading fails

  function Consumed(rest: seq<Token>, error: ParseError): int {
    |rest| - error.remaining
  }

  predicate Meets(token: Token, expected: string) {
    if expected == "identifier" then token.Word? else token == Mark(expected)
  }

  /** What was read so far begins a spelling that goes on as the error says it should. */
  predicate GoesOn(rest: seq<Token>, error: ParseError, w: seq<Token>) {
    var n := Consumed(rest, error);
    0 <= n < |w| && rest[..n] == w[..n] && Meets(w[n], error.expected)
  }

  lemma GoesOnBehind(head: seq<Token>, rest: seq<Token>, error: ParseError, w: seq<Token>, tail: seq<Token>)
    requires GoesOn(rest, error, w)
    ensures GoesOn(head + rest, error, head + w + tail)
  {
    var n := Consumed(rest, error);
    assert (head + rest)[..|head| + n] == head + rest[..n];
    assert (head + w + tail)[..|head| + n] == head + w[..n];
    assert (head + w + tail)[|head| + n] == w[n];
  }

  lemma {:induction false} SegmentsGoOn(rest: seq<Token>) returns (segments: seq<string>)
    requires WordsValid(rest) && ParseSegments(rest).Err?
    ensures GoesOn(rest, ParseSegments(rest).error, SegmentTokens(segments))
    ensures forall i :: 0 <= i < |segments| ==> ValidWord(segments[i])
    decreases |rest|
  {
    hide WordsValid;
    AtIsMark(rest, "::");
    TailValid(rest);
    WordIsTaken(rest[1..]);
    var word := ParseWord(rest[1..]);
    if word.Err? {
      segments := ["x"];
      assert SegmentTokens(["x"]) == [Mark("::"), Word("x")];
      assert GoesOn(rest, word.error, [Mark("::"), Word("x")]);
    } else {
      hide GoesOn;
      var more := SegmentsGoOn(word.value.rest);
      segments := [word.value.value] + more;
      var head := [Mark("::"), Word(word.value.value)];
      assert segments[1..] == more;
      assert rest == head + word.value.rest;
      assert SegmentTokens(segments) == head + SegmentTokens(more) + [];
      GoesOnBehind(head, word.value.rest, ParseSegments(word.value.rest).error, SegmentTokens(more), []);
    }
  }

  lemma PathGoesOn(rest: seq<Token>) returns (path: TypePath)
    requires WordsValid(rest) && ParsePath(rest, true).Err?
    ensures ShapedPath(path) && GoesOn(rest, ParsePath(rest, true).error, PathSpelling(path))
  {
    var external := At(rest, "$");
    var start := if external then rest[1..] else rest;
    AtIsMark(rest, "$");
    TailValid(rest);
    WordIsTaken(start);
    var word := ParseWord(start);
    assert ValidWord("x") && ValidWord("self");
    if word.Err? {
      path := TypePath(if external then "$x" else "x", []);
      assert "$x"[1..] == "x";
      assert PathSpelling(path) == if external then [Mark("$"), Word("x")] else [Word("x")];
    } else if rest[0] == Word("self") {
      path := SelfGoesOn(rest);
    } else {
      path := OtherGoesOn(rest);
    }
  }

  lemma SelfStarts(rest: seq<Token>, n: nat, expected: string)
    requires n < 3 && |rest| >= n && rest[..n] == [Word("self"), Mark("."), Word("x")][..n]
    requires Meets([Word("self"), Mark("."), Word("x")][n], expected)
    ensures var path := TypePath("self", ["x"]);
      ShapedPath(path) && GoesOn(rest, ParseError(expected, |rest| - n), PathSpelling(path))
  {
    assert ValidWord("x") && ValidWord("self");
    assert PathSpelling(TypePath("self", ["x"])) == [Word("self"), Mark("."), Word("x")];
  }

  lemma SelfGoesOn(rest: seq<Token>) returns (path: TypePath)
    requires WordsValid(rest) && rest != [] && rest[0] == Word("self") && ParsePath(rest, true).Err?
    ensures ShapedPath(path) && GoesOn(rest, ParsePath(rest, true).error, PathSpelling(path))
  {
    hide WordsValid, ParseSegments, GoesOn, ShapedPath, PathSpelling;
    TailValid(rest);
    AtIsMark(rest[1..], ".");
    path := TypePath("self", ["x"]);
    if !At(rest[1..], ".") {
      SelfStarts(rest, 1, ".");
    } else {
      TailValid(rest[1..]);
      var after := rest[1..][1..];
      WordIsTaken(after);
      if ParseWord(after).Err? {
        SelfStarts(rest, 2, "identifier");
      } else {
        path := SelectionGoesOn(rest, ParseWord(after).value.value, ParseWord(after).value.rest);
      }
    }
  }

  lemma SelectionGoesOn(rest: seq<Token>, first: string, later: seq<Token>) returns (path: TypePath)
    requires ValidWord(first) && WordsValid(later) && rest == [Word("self"), Mark("."), Word(first)] + later
    requires ParsePath(rest, true).Err?
    ensures ShapedPath(path) && GoesOn(rest, ParsePath(rest, true).error, PathSpelling(path))
  {
    assert ValidWord("self");
    hide WordsValid, ParseSegments, SegmentTokens, ParsePath, GoesOn, ValidWord;
    SelfReads(rest, first, later, true);
    var head := [Word("self"), Mark("."), Word(first)];
    var segments := SegmentsGoOn(later);
    path := TypePath("self", [first] + segments);
    assert path.segments[1..] == segments;
    assert PathSpelling(path) == head + SegmentTokens(segments) + [];
    GoesOnBehind(head, later, ParseSegments(later).error, SegmentTokens(segments), []);
  }

  lemma OtherGoesOn(rest: seq<Token>) returns (path: TypePath)
    requires WordsValid(rest) && rest != [] && rest[0] != Word("self") && ParsePath(rest, true).Err?
    requires ParseWord(if At(rest, "$") then rest[1..] else rest).Ok?
    ensures ShapedPath(path) && GoesOn(rest, ParsePath(rest, true).error, PathSpelling(path))
  {
    hide WordsValid, ParseSegments, SegmentTokens, GoesOn;
    var external := At(rest, "$");
    AtIsMark(rest, "$");
    TailValid(rest);
    var start := if external then rest[1..] else rest;
    WordIsTaken(start);
    var word := ParseWord(start).value;
    var root := if external then "$" + word.value else word.value;
    assert external ==> root[0] == '$' && root[1..] == word.value;
    assert !external ==> StartsWord(root[0]);
    assert ValidRoot(root) && root != "self";
    hide ValidWord;
    var segments := SegmentsGoOn(word.rest);
    path := TypePath(root, segments);
    var head := if external then [Mark("$"), Word(root[1..])] else [Word(root)];
    assert rest == head + word.rest;
    assert PathSpelling(path) == head + SegmentTokens(segments) + [];
    GoesOnBehind(head, word.rest, ParseSegments(word.rest).error, SegmentTokens(segments), []);
  }

  lemma {:induction false} TypeGoesOn(rest: seq<Token>) returns (t: TypeExpr, w: seq<Token>)
    requires WordsValid(rest) && ParseType(rest).Err?
    ensures Spells(t, w) && GoesOn(rest, ParseType(rest).error, w)
    decreases |rest|, 0
  {
    hide WordsValid, ParsePath, ParseList, ShapedPath, PathSpelling, GoesOn, SpellsList;
    AtIsMark(rest, "(");
    TailValid(rest);
    if At(rest, "(") {
      var items, v := ListGoesOn(rest[1..], ")");
      t, w := Tuple(items), [Mark("(")] + v + [Mark(")")];
      assert Inside(w) == v;
      GoesOnBehind([Mark("(")], rest[1..], ParseList(rest[1..], ")").error, v, [Mark(")")]);
    } else if ParsePath(rest, true).Err? {
      var path := PathGoesOn(rest);
      t, w := Named(path, []), PathSpelling(path);
    } else {
      PathIsTaken(rest, true);
      var Parsed(path, after) := ParsePath(rest, true).value;
      AtIsMark(after, "<");
      TailValid(after);
      var items, v := ListGoesOn(after[1..], ">");
      var head := PathSpelling(path) + [Mark("<")];
      t, w := Named(path, items), head + v + [Mark(">")];
      assert w[|PathSpelling(path)|..] == [Mark("<")] + v + [Mark(">")];
      assert Inside(w[|PathSpelling(path)|..]) == v;
      assert rest == head + after[1..];
      GoesOnBehind(head, after[1..], ParseList(after[1..], ">").error, v, [Mark(">")]);
    }
  }

  lemma {:induction false} ListGoesOn(rest: seq<Token>, end: string) returns (items: seq<TypeExpr>, w: seq<Token>)
    requires WordsValid(rest) && (end == ")" || end == ">") && ParseList(rest, end).Err?
    ensures SpellsList(items, w) && GoesOn(rest, ParseList(rest, end).error, w)
    decreases |rest|, 1
  {
    hide ParseType, WordsValid, Spells, SpellsList, GoesOn, TypeSplit, At;
    var item := ParseType(rest);
    if item.Err? {
      var t, v := TypeGoesOn(rest);
      OneSpelled(t, v);
      items, w := [t], v;
    } else {
      var Parsed(t, after) := item.value;
      TypeIsTaken(rest);
      assert
        && WordsValid(after) && |after| <= |rest| && rest == rest[..|rest| - |after|] + after
        && Spells(t, rest[..|rest| - |after|]) by { SplitValid(rest, t, after); }
      AtIsMark(after, ",");
      TailValid(after);
      var v := rest[..|rest| - |after|];
      if !At(after, ",") {
        items, w := [t], v + [Mark(",")];
        NoneSpelled();
        NextSpelled(t, v, [], []);
        CommaGoesOn(rest, after);
        assert w + [] == w && [t] + [] == [t];
      } else {
        var more, u := ListGoesOn(after[1..], end);
        items, w := [t] + more, v + [Mark(",")] + u;
        NextSpelled(t, v, more, u);
        assert rest == (v + [Mark(",")]) + after[1..] && w == (v + [Mark(",")]) + u + [];
        GoesOnBehind(v + [Mark(",")], after[1..], ParseList(after[1..], end).error, u, []);
      }
    }
  }

  lemma NoneSpelled()
    ensures SpellsList([], [])
  {
  }

  lemma CommaGoesOn(rest: seq<Token>, after: seq<Token>)
    requires |after| <= |rest| && rest == rest[..|rest| - |after|] + after
    ensures GoesOn(rest, ParseError(",", |after|), rest[..|rest| - |after|] + [Mark(",")])
  {
  }

  // ---------------------------------------------------------------- why reading cannot go on

  /** The same tokens up to and including number `n`. */
  predicate Alike(a: seq<Token>, b: seq<Token>, n: int) {
    0 <= n < |a| && n < |b| && a[..n + 1] == b[..n + 1]
  }

  lemma AlikeBehind(a: seq<Token>, b: seq<Token>, n: int, k: nat)
    requires Alike(a, b, n) && k <= n
    ensures k < |b| && Alike(a[k..], b[k..], n - k) && a[..k] == b[..k] && a[k] == b[k]
  {
    assert a[..n + 1][k] == b[..n + 1][k];
    assert a[..k] == a[..n + 1][..k] && b[..k] == b[..n + 1][..k];
    assert a[k..][..n - k + 1] == a[..n + 1][k..] && b[k..][..n - k + 1] == b[..n + 1][k..];
  }

  /** The same failure at the same place of another text. */
  function Elsewhere(rest: seq<Token>, error: ParseError, other: seq<Token>): ParseError
    requires Alike(rest, other, Consumed(rest, error))
  {
    ParseError(error.expected, |other| - Consumed(rest, error))
  }

  lemma {:induction false} SegmentsStuck(rest: seq<Token>, other: seq<Token>)
    requires var r := ParseSegments(rest); r.Err? && Alike(rest, other, Consumed(rest, r.error))
    ensures ParseSegments(other) == Err(Elsewhere(rest, ParseSegments(rest).error, other))
    decreases |rest|
  {
    hide Alike;
    var n := Consumed(rest, ParseSegments(rest).error);
    AlikeBehind(rest, other, n, 0);
    AlikeBehind(rest, other, n, 1);
    if ParseWord(rest[1..]).Ok? {
      AlikeBehind(rest, other, n, 2);
      assert rest[1..][1..] == rest[2..] && other[1..][1..] == other[2..];
      SegmentsStuck(rest[2..], other[2..]);
    }
  }

  lemma PathStuck(rest: seq<Token>, other: seq<Token>, localType: bool)
    requires var r := ParsePath(rest, localType); r.Err? && Alike(rest, other, Consumed(rest, r.error))
    ensures ParsePath(other, localType) == Err(Elsewhere(rest, ParsePath(rest, localType).error, other))
  {
    if At(rest, "$") {
      ExternalStuck(rest, other, localType);
    } else {
      PlainStuck(rest, other, localType);
    }
  }

  lemma ExternalStuck(rest: seq<Token>, other: seq<Token>, localType: bool)
    requires var r := ParsePath(rest, localType); r.Err? && Alike(rest, other, Consumed(rest, r.error))
    requires At(rest, "$")
    ensures ParsePath(other, localType) == Err(Elsewhere(rest, ParsePath(rest, localType).error, other))
  {
    hide Alike, ParseSegments;
    var n := Consumed(rest, ParsePath(rest, localType).error);
    AlikeBehind(rest, other, n, 0);
    AlikeBehind(rest, other, n, 1);
    if ParseWord(rest[1..]).Ok? {
      assert ("$" + rest[1].text)[0] == '$';
      AlikeBehind(rest, other, n, 2);
      assert rest[1..][1..] == rest[2..] && other[1..][1..] == other[2..];
      SegmentsStuck(rest[2..], other[2..]);
    }
  }

  lemma PlainStuck(rest: seq<Token>, other: seq<Token>, localType: bool)
    requires var r := ParsePath(rest, localType); r.Err? && Alike(rest, other, Consumed(rest, r.error))
    requires !At(rest, "$")
    ensures ParsePath(other, localType) == Err(Elsewhere(rest, ParsePath(rest, localType).error, other))
  {
    hide Alike, ParseSegments;
    var n := Consumed(rest, ParsePath(rest, localType).error);
    AlikeBehind(rest, other, n, 0);
    if ParseWord(rest).Ok? {
      AlikeBehind(rest, other, n, 1);
      var root, later := rest[0].text, rest[1..];
      if root == "self" {
        if At(later, ".") {
          SelectionStuck(later, other[1..], n - 1);
        }
      } else if localType || root == "crate" {
        SegmentsStuck(later, other[1..]);
      }
    }
  }

  lemma SelectionStuck(rest: seq<Token>, other: seq<Token>, n: int)
    requires Alike(rest, other, n) && At(rest, ".")
    requires match ParseWord(rest[1..])
      case Err(error) => n == 1
      case Ok(word) => var more := ParseSegments(word.rest); more.Err? && n == |rest| - more.error.remaining
    ensures At(other, ".")
    ensures match ParseWord(rest[1..])
      case Err(error) => ParseWord(other[1..]) == Err(ParseError(error.expected, |other| - n))
      case Ok(word) =>
        && var word' := ParseWord(other[1..]);
        && word'.Ok?
        && ParseSegments(word'.value.rest) == Err(ParseError(ParseSegments(word.rest).error.expected, |other| - n))
  {
    hide Alike, ParseSegments;
    AlikeBehind(rest, other, n, 0);
    AlikeBehind(rest, other, n, 1);
    if ParseWord(rest[1..]).Ok? {
      assert rest[1..][1..] == rest[2..] && other[1..][1..] == other[2..];
      AlikeBehind(rest, other, n, 2);
      SegmentsStuck(rest[2..], other[2..]);
    }
  }

  /** What was read is read again where its last token and the next are the same. */
  lemma TypeAgain(rest: seq<Token>, other: seq<Token>, n: int)
    requires WordsValid(rest) && ParseType(rest).Ok?
    requires var k := |rest| - |ParseType(rest).value.rest|; Alike(rest, other, n) && k <= n
    ensures var k := |rest| - |ParseType(rest).value.rest|;
      ParseType(other) == Ok(Parsed(ParseType(rest).value.value, other[k..]))
  {
    hide ParseType, Spells, WordsValid, Alike;
    var Parsed(t, after) := ParseType(rest).value;
    var k := |rest| - |after|;
    TypeIsTaken(rest);
    AlikeBehind(rest, other, n, k);
    assert rest[k..] == after && other == other[..k] + other[k..];
    assert Stops(after) ==> Stops(other[k..]);
    SpellingParses(t, rest[..k], other[k..]);
  }

  lemma {:induction false} TypeStuck(rest: seq<Token>, other: seq<Token>)
    requires var r := ParseType(rest); WordsValid(rest) && r.Err? && Alike(rest, other, Consumed(rest, r.error))
    ensures ParseType(other) == Err(Elsewhere(rest, ParseType(rest).error, other))
    decreases |rest|, 1
  {
    hide ParsePath, ParseList, WordsValid, Alike;
    var n := Consumed(rest, ParseType(rest).error);
    AlikeBehind(rest, other, n, 0);
    TailValid(rest);
    if At(rest, "(") {
      AlikeBehind(rest, other, n, 1);
      ListStuck(rest[1..], other[1..], ")");
    } else if ParsePath(rest, true).Err? {
      PathStuck(rest, other, true);
    } else {
      ArgumentsStuck(rest, other);
    }
  }

  lemma PathAgain(rest: seq<Token>, other: seq<Token>, n: int)
    requires WordsValid(rest) && ParsePath(rest, true).Ok?
    requires var k := |rest| - |ParsePath(rest, true).value.rest|; Alike(rest, other, n) && k <= n
    ensures var k := |rest| - |ParsePath(rest, true).value.rest|;
      && k <= |other| && rest[k..] == ParsePath(rest, true).value.rest
      && ParsePath(other, true) == Ok(Parsed(ParsePath(rest, true).value.value, other[k..]))
      && WordsValid(rest[k..])
  {
    hide ParsePath, WordsValid, Alike, ShapedPath, PathSpelling;
    var Parsed(path, after) := ParsePath(rest, true).value;
    var k := |rest| - |after|;
    PathIsTaken(rest, true);
    assert rest[k..] == after && rest[..k] == PathSpelling(path);
    AlikeBehind(rest, other, n, k);
    assert other == other[..k] + other[k..];
    PathSpellingParses(path, other[k..], true);
  }

  lemma ArgumentsStuck(rest: seq<Token>, other: seq<Token>)
    requires var r := ParseType(rest); WordsValid(rest) && r.Err? && Alike(rest, other, Consumed(rest, r.error))
    requires !At(rest, "(") && ParsePath(rest, true).Ok?
    ensures ParseType(other) == Err(Elsewhere(rest, ParseType(rest).error, other))
    decreases |rest|, 0
  {
    hide ParseList, ParsePath, WordsValid, Alike;
    var n := Consumed(rest, ParseType(rest).error);
    var after := ParsePath(rest, true).value.rest;
    var k := |rest| - |after|;
    PathAgain(rest, other, n);
    TailValid(after);
    AlikeBehind(rest, other, n, 0);
    AlikeBehind(rest, other, n, k);
    AlikeBehind(rest, other, n, k + 1);
    assert rest[k + 1..] == after[1..] && other[k..][1..] == other[k + 1..];
    ListStuck(after[1..], other[k + 1..], ">");
  }

  lemma {:induction false} ListStuck(rest: seq<Token>, other: seq<Token>, end: string)
    requires var r := ParseList(rest, end); WordsValid(rest) && r.Err? && Alike(rest, other, Consumed(rest, r.error))
    ensures ParseList(other, end) == Err(Elsewhere(rest, ParseList(rest, end).error, other))
    decreases |rest|, 2
  {
    hide ParseType, WordsValid, Alike;
    var n := Consumed(rest, ParseList(rest, end).error);
    AlikeBehind(rest, other, n, 0);
    var item := ParseType(rest);
    if item.Err? {
      TypeStuck(rest, other);
    } else {
      var Parsed(t, after) := item.value;
      var k := |rest| - |after|;
      assert WordsValid(after) && rest[k..] == after by {
        TypeIsTaken(rest);
        SplitValid(rest, t, after);
      }
      TailValid(after);
      TypeAgain(rest, other, n);
      AlikeBehind(rest, other, n, k);
      if At(after, ",") {
        AlikeBehind(rest, other, n, k + 1);
        assert rest[k + 1..] == after[1..] && other[k..][1..] == other[k + 1..];
        ListStuck(after[1..], other[k + 1..], end);
      }
    }
  }

  /** Some type is spelled with these tokens first. */
  ghost predicate Begins(start: seq<Token>) {
    exists t, w :: Spells(t, w) && start <= w
  }

  lemma NothingBegins(rest: seq<Token>)
    requires WordsValid(rest) && ParseType(rest).Err?
    ensures var n := Consumed(rest, ParseType(rest).error); 0 <= n < |rest| ==> !Begins(rest[..n + 1])
  {
    hide ParseType, Spells, WordsValid;
    var n := Consumed(rest, ParseType(rest).error);
    if 0 <= n < |rest| && Begins(rest[..n + 1]) {
      var t, w :| Spells(t, w) && rest[..n + 1] <= w;
      assert w[..n + 1] == rest[..n + 1];
      assert w + [] == w;
      SpellingParses(t, w, []);
      TypeStuck(rest, w);
    }
  }

  /** An error stands at the first token with which no type begins, and names a token that could stand there. */
  lemma ErrorIsFirst(rest: seq<Token>)
    requires WordsValid(rest) && ParseType(rest).Err?
    ensures var error := ParseType(rest).error;
      var n := Consumed(rest, error);
      && 0 <= n <= |rest|
      && (exists token :: Meets(token, error.expected) && Begins(rest[..n] + [token]))
      && (n < |rest| ==> !Begins(rest[..n + 1]))
  {
    hide ParseType, Spells, WordsValid, Meets;
    var error := ParseType(rest).error;
    var n := Consumed(rest, error);
    NothingBegins(rest);
    var t, w := TypeGoesOn(rest);
    PutBack(rest[..n], w);
    assert Spells(t, w) && rest[..n] + [w[n]] <= w;
    assert Begins(rest[..n] + [w[n]]);
  }

  lemma PutBack(start: seq<Token>, w: seq<Token>)
    requires |start| < |w| && start == w[..|start|]
    ensures start + [w[|start|]] <= w
  {
  }
}

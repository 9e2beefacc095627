/** Reading `.sage` text: the tokenizer and the type-expression part of the parser. */
module TypeSyntax {
  import opened Characters
  import opened Wrappers

  datatype Token = Word(text: string) | Prose(text: string) | Mark(text: string)

  /** `at` counts the characters before the offending one. */
  datatype LexError = Unterminated(at: nat) | Unexpected(at: nat, ch: char)

  // ---------------------------------------------------------------- characters

  predicate IsLetter(ch: char) {
    'a' <= ch <= 'z' || 'A' <= ch <= 'Z'
  }

  predicate StartsWord(ch: char) {
    IsLetter(ch) || ch == '_'
  }

  predicate InWord(ch: char) {
    StartsWord(ch) || '0' <= ch <= '9'
  }

  predicate IsMark(ch: char) {
    ch in "{}():;.$<>,#[]"
  }

  const QUOTES := "\"\"\""

  // ---------------------------------------------------------------- the tokenizer

  /** Characters of the word at the start. */
  function WordLength(text: string): (n: nat)
    ensures n <= |text| && (forall i :: 0 <= i < n ==> InWord(text[i])) && (n < |text| ==> !InWord(text[n]))
  {
    if text == "" || !InWord(text[0]) then 0 else 1 + WordLength(text[1..])
  }

  /** Characters before the first line feed, or all of them. */
  function LineLength(text: string): (n: nat)
    ensures n <= |text| && (forall i :: 0 <= i < n ==> text[i] != '\n') && (n < |text| ==> text[n] == '\n')
  {
    if text == "" || text[0] == '\n' then 0 else 1 + LineLength(text[1..])
  }

  /** Where three quotes first occur, if they do. */
  function FindQuotes(text: string): (found: Option<nat>)
    ensures found.Some? ==> found.value + 3 <= |text| && QUOTES <= text[found.value..]
    ensures forall i: nat :: i < (if found.Some? then found.value else |text|) ==> !(QUOTES <= text[i..])
  {
    if QUOTES <= text then Some(0)
    else if text == "" then None
    else
      assert text[0..] == text;
      assert forall i: nat :: 0 < i < |text| ==> text[i..] == text[1..][i - 1..];
      match FindQuotes(text[1..]) case Some(n) => Some(n + 1) case None => None
  }

  datatype Step = Skip(length: nat) | Take(token: Token, length: nat) | Fail(unterminated: bool)

  /** What the tokenizer does at the start of nonempty text. */
  function StepAt(text: string): (step: Step)
    requires text != ""
    ensures !step.Fail? ==> 0 < step.length <= |text|
  {
    var ch := text[0];
    if IsSpace(ch) then Skip(1)
    else if "//" <= text then assert text[0] != '\n'; Skip(LineLength(text))
    else if QUOTES <= text then
      match FindQuotes(text[3..])
      case Some(end) => Take(Prose(text[3..][..end]), end + 6)
      case None => Fail(true)
    else if StartsWord(ch) then Take(Word(text[..WordLength(text)]), WordLength(text))
    else if "::" <= text || "->" <= text then Take(Mark(text[..2]), 2)
    else if IsMark(ch) then Take(Mark(text[..1]), 1)
    else Fail(false)
  }

  function Prepend(tokens: seq<Token>, later: Result<seq<Token>, LexError>): Result<seq<Token>, LexError> {
    match later
    case Ok(rest) => Ok(tokens + rest)
    case Err(error) => Err(error)
  }

  /** The tokens of the text from `offset` on. */
  function LexFrom(text: string, offset: nat): Result<seq<Token>, LexError>
    requires offset <= |text|
    decreases |text| - offset
  {
    if offset == |text| then Ok([])
    else match StepAt(text[offset..])
         case Skip(length) => LexFrom(text, offset + length)
         case Take(token, length) => Prepend([token], LexFrom(text, offset + length))
         case Fail(unterminated) => Err(if unterminated then Unterminated(offset) else Unexpected(offset, text[offset]))
  }

  function Lex(text: string): Result<seq<Token>, LexError> {
    LexFrom(text, 0)
  }

  /** How one step at `offset` carries the tokens read so far forward. */
  lemma LexStep(tokens: seq<Token>, text: string, offset: nat)
    requires offset < |text|
    ensures var step := StepAt(text[offset..]);
      Prepend(tokens, LexFrom(text, offset)) ==
        match step
        case Skip(length) => Prepend(tokens, LexFrom(text, offset + length))
        case Take(token, length) => Prepend(tokens + [token], LexFrom(text, offset + length))
        case Fail(unterminated) => Err(if unterminated then Unterminated(offset) else Unexpected(offset, text[offset]))
  {
    hide StepAt;
    var step := StepAt(text[offset..]);
    if step.Take? {
      PrependTwice(tokens, [step.token], LexFrom(text, offset + step.length));
    }
  }

  lemma LexDone(tokens: seq<Token>, text: string)
    ensures Prepend(tokens, LexFrom(text, |text|)) == Ok(tokens)
  {
    assert tokens + [] == tokens;
  }

  method Tokenize(source: string) returns (result: Result<seq<Token>, LexError>)
    ensures result == Lex(source)
  {
    hide LexFrom, Prepend, IsSpace, IsMark, StartsWord;
    var tokens: seq<Token> := [];
    var offset := 0;
    PrependNothing(Lex(source));
    while offset < |source|
      invariant offset <= |source|
      invariant Prepend(tokens, LexFrom(source, offset)) == Lex(source)
    {
      var tail := source[offset..];
      var ch := tail[0];
      LexStep(tokens, source, offset);
      if IsSpace(ch) {
        offset := offset + 1;
        continue;
      }
      if "//" <= tail {
        offset := offset + LineLength(tail);
        continue;
      }
      var token: Token;
      if QUOTES <= tail {
        var rest := tail[3..];
        match FindQuotes(rest) {
          case None =>
            return Err(Unterminated(offset));
          case Some(end) =>
            offset := offset + end + 6;
            token := Prose(rest[..end]);
        }
      } else if StartsWord(ch) {
        var length := WordLength(tail);
        offset := offset + length;
        token := Word(tail[..length]);
      } else if "::" <= tail || "->" <= tail {
        offset := offset + 2;
        token := Mark(tail[..2]);
      } else if IsMark(ch) {
        offset := offset + 1;
        token := Mark([ch]);
        assert [ch] == tail[..1];
      } else {
        return Err(Unexpected(offset, ch));
      }
      tokens := tokens + [token];
    }
    LexDone(tokens, source);
    result := Ok(tokens);
  }

  lemma PrependNothing(later: Result<seq<Token>, LexError>)
    ensures Prepend([], later) == later
  {
    if later.Ok? {
      assert [] + later.value == later.value;
    }
  }

  lemma PrependTwice(a: seq<Token>, b: seq<Token>, later: Result<seq<Token>, LexError>)
    ensures Prepend(a, Prepend(b, later)) == Prepend(a + b, later)
  {
    if later.Ok? {
      assert a + (b + later.value) == (a + b) + later.value;
    }
  }

  // ---------------------------------------------------------------- the parser

  datatype TypePath = TypePath(root: string, segments: seq<string>)

  datatype TypeExpr = Tuple(items: seq<TypeExpr>) | Named(path: TypePath, arguments: seq<TypeExpr>)

  /** `remaining` counts the tokens not consumed when the error was noticed. */
  datatype ParseError = ParseError(expected: string, remaining: nat)

  /** A parsed value and the tokens after it. */
  datatype Parsed<T> = Parsed(value: T, rest: seq<Token>)

  type Parse<T> = Result<Parsed<T>, ParseError>

  predicate At(rest: seq<Token>, text: string) {
    rest != [] && !rest[0].Prose? && rest[0].text == text
  }

  function ParseWord(rest: seq<Token>): (r: Parse<string>)
    ensures r.Ok? ==> |r.value.rest| < |rest|
    ensures r.Err? ==> r.error.remaining <= |rest|
  {
    if rest != [] && rest[0].Word? then Ok(Parsed(rest[0].text, rest[1..])) else Err(ParseError("identifier", |rest|))
  }

  /** Any number of `::word`. */
  function ParseSegments(rest: seq<Token>): (r: Parse<seq<string>>)
    ensures r.Ok? ==> |r.value.rest| <= |rest|
    ensures r.Err? ==> r.error.remaining <= |rest|
    decreases |rest|
  {
    if !At(rest, "::") then Ok(Parsed([], rest))
    else match ParseWord(rest[1..])
         case Err(error) => Err(error)
         case Ok(word) =>
           match ParseSegments(word.rest)
           case Err(error) => Err(error)
           case Ok(more) => Ok(Parsed([word.value] + more.value, more.rest))
  }

  function Prefixed(head: seq<string>, later: Parse<seq<string>>): Parse<seq<string>> {
    match later
    case Err(error) => Err(error)
    case Ok(more) => Ok(Parsed(head + more.value, more.rest))
  }

  function ParsePath(rest: seq<Token>, localType: bool): (r: Parse<TypePath>)
    ensures r.Ok? ==> |r.value.rest| < |rest|
    ensures r.Err? ==> r.error.remaining <= |rest|
  {
    var external := At(rest, "$");
    match ParseWord(if external then rest[1..] else rest)
    case Err(error) => Err(error)
    case Ok(word) =>
      var root := if external then "$" + word.value else word.value;
      if !localType && !external && root != "crate" && root != "self" then Err(ParseError("path root", |word.rest|))
      else if root == "self" then
        if !At(word.rest, ".") then Err(ParseError(".", |word.rest|))
        else
          match ParseWord(word.rest[1..])
          case Err(error) => Err(error)
          case Ok(first) =>
            match ParseSegments(first.rest)
            case Err(error) => Err(error)
            case Ok(more) => Ok(Parsed(TypePath(root, [first.value] + more.value), more.rest))
      else
        match ParseSegments(word.rest)
        case Err(error) => Err(error)
        case Ok(more) => Ok(Parsed(TypePath(root, more.value), more.rest))
  }

  function ParseType(rest: seq<Token>): (r: Parse<TypeExpr>)
    ensures r.Ok? ==> |r.value.rest| < |rest|
    ensures r.Err? ==> r.error.remaining <= |rest|
    decreases |rest|, 0
  {
    if At(rest, "(") then
      match ParseList(rest[1..], ")")
      case Err(error) => Err(error)
      case Ok(items) => Ok(Parsed(Tuple(items.value), items.rest))
    else
      match ParsePath(rest, true)
      case Err(error) => Err(error)
      case Ok(path) =>
        if At(path.rest, "<") then
          match ParseList(path.rest[1..], ">")
          case Err(error) => Err(error)
          case Ok(arguments) => Ok(Parsed(Named(path.value, arguments.value), arguments.rest))
        else Ok(Parsed(Named(path.value, []), path.rest))
  }

  /** Types separated by commas, a trailing comma allowed, up to and including `end`. */
  function ParseList(rest: seq<Token>, end: string): (r: Parse<seq<TypeExpr>>)
    ensures r.Ok? ==> |r.value.rest| < |rest|
    ensures r.Err? ==> r.error.remaining <= |rest|
    decreases |rest|, 1
  {
    if At(rest, end) then Ok(Parsed([], rest[1..]))
    else match ParseType(rest)
         case Err(error) => Err(error)
         case Ok(item) =>
           if At(item.rest, end) then Ok(Parsed([item.value], item.rest[1..]))
           else if !At(item.rest, ",") then Err(ParseError(",", |item.rest|))
           else
             match ParseList(item.rest[1..], end)
             case Err(error) => Err(error)
             case Ok(more) => Ok(Parsed([item.value] + more.value, more.rest))
  }

  function Joined(head: seq<TypeExpr>, later: Parse<seq<TypeExpr>>): Parse<seq<TypeExpr>> {
    match later
    case Err(error) => Err(error)
    case Ok(more) => Ok(Parsed(head + more.value, more.rest))
  }

  lemma NothingBefore(words: Parse<seq<string>>, types: Parse<seq<TypeExpr>>)
    ensures Prefixed([], words) == words && Joined([], types) == types
  {
    if words.Ok? {
      assert [] + words.value.value == words.value.value;
    }
    if types.Ok? {
      assert [] + types.value.value == types.value.value;
    }
  }

  /** One more word in front of the segments still to come. */
  lemma SegmentStep(head: seq<string>, rest: seq<Token>)
    requires At(rest, "::")
    ensures Prefixed(head, ParseSegments(rest)) ==
      match ParseWord(rest[1..])
      case Err(error) => Err(error)
      case Ok(word) => Prefixed(head + [word.value], ParseSegments(word.rest))
  {
    var word := ParseWord(rest[1..]);
    if word.Ok? {
      var more := ParseSegments(word.value.rest);
      if more.Ok? {
        assert head + ([word.value.value] + more.value.value) == (head + [word.value.value]) + more.value.value;
      }
    }
  }

  function AfterItem(items: seq<TypeExpr>, rest: seq<Token>, end: string): Parse<seq<TypeExpr>> {
    if At(rest, end) then Ok(Parsed(items, rest[1..]))
    else if !At(rest, ",") then Err(ParseError(",", |rest|))
    else Joined(items, ParseList(rest[1..], end))
  }

  lemma ListStep(head: seq<TypeExpr>, rest: seq<Token>, end: string)
    requires !At(rest, end)
    ensures var item := ParseType(rest);
      Joined(head, ParseList(rest, end)) ==
        if item.Err? then Err(item.error) else AfterItem(head + [item.value.value], item.value.rest, end)
  {
    var item := ParseType(rest);
    if item.Ok? && !At(item.value.rest, end) && At(item.value.rest, ",") {
      var more := ParseList(item.value.rest[1..], end);
      if more.Ok? {
        assert head + ([item.value.value] + more.value.value) == (head + [item.value.value]) + more.value.value;
      }
    }
  }

  /** The parser as it runs: a cursor moving over the tokens. */
  class Parser {
    const tokens: seq<Token>
    var cursor: nat

    ghost predicate Valid()
      reads this
    {
      cursor <= |tokens|
    }

    function Rest(): (rest: seq<Token>)
      reads this
      requires cursor <= |tokens|
    {
      tokens[cursor..]
    }

    /** A method's result and the new cursor are what the parsing function gives. */
    ghost predicate Follows<T>(outcome: Parse<T>, result: Result<T, ParseError>)
      reads this
      requires Valid()
    {
      match outcome
      case Ok(parsed) => result == Ok(parsed.value) && Rest() == parsed.rest
      case Err(error) => result == Err(error)
    }

    constructor (tokens: seq<Token>)
      ensures Valid() && this.tokens == tokens && Rest() == tokens
    {
      this.tokens := tokens;
      cursor := 0;
    }

    method Eat(text: string) returns (eaten: bool)
      requires Valid()
      modifies this`cursor
      ensures Valid() && eaten == At(old(Rest()), text)
      ensures cursor == old(cursor) + if eaten then 1 else 0
      ensures Rest() == if eaten then old(Rest())[1..] else old(Rest())
    {
      eaten := At(Rest(), text);
      if eaten {
        cursor := cursor + 1;
      }
    }

    method TakeWord() returns (result: Result<string, ParseError>)
      requires Valid()
      modifies this`cursor
      ensures Valid() && cursor == old(cursor) + if result.Ok? then 1 else 0
      ensures Follows(ParseWord(old(Rest())), result)
    {
      if cursor < |tokens| && tokens[cursor].Word? {
        result := Ok(tokens[cursor].text);
        cursor := cursor + 1;
      } else {
        result := Err(ParseError("identifier", |tokens| - cursor));
      }
    }

    method TakeSegments(head: seq<string>) returns (result: Result<seq<string>, ParseError>)
      requires Valid()
      modifies this`cursor
      ensures Valid() && cursor >= old(cursor) && Follows(Prefixed(head, ParseSegments(old(Rest()))), result)
    {
      hide ParseSegments, ParseWord;
      var segments := head;
      ghost var expected := Prefixed(head, ParseSegments(Rest()));
      ghost var before := Rest();
      var another := Eat("::");
      while another
        invariant Valid() && old(cursor) <= cursor
        invariant another == At(before, "::") && Rest() == if another then before[1..] else before
        invariant Prefixed(segments, ParseSegments(before)) == expected
        decreases |tokens| - cursor, another
      {
        SegmentStep(segments, before);
        var segment := TakeWord();
        if segment.Err? {
          return Err(segment.error);
        }
        segments := segments + [segment.value];
        before := Rest();
        another := Eat("::");
      }
      NoSegments(segments, before);
      result := Ok(segments);
    }

    method TakePath(localType: bool) returns (result: Result<TypePath, ParseError>)
      requires Valid()
      modifies this`cursor
      ensures Valid() && cursor >= old(cursor) && Follows(ParsePath(old(Rest()), localType), result)
    {
      hide ParseSegments, ParseWord, At;
      var external := Eat("$");
      var word := TakeWord();
      if word.Err? {
        return Err(word.error);
      }
      var root := if external then "$" + word.value else word.value;
      if !localType && !external && root != "crate" && root != "self" {
        return Err(ParseError("path root", |tokens| - cursor));
      }
      var segments: seq<string> := [];
      if root == "self" {
        var dot := Eat(".");
        if !dot {
          return Err(ParseError(".", |tokens| - cursor));
        }
        var first := TakeWord();
        if first.Err? {
          return Err(first.error);
        }
        segments := [first.value];
      }
      NothingBefore(ParseSegments(Rest()), Err(ParseError("", 0)));
      var all := TakeSegments(segments);
      if all.Err? {
        return Err(all.error);
      }
      result := Ok(TypePath(root, all.value));
    }

    method TakeType() returns (result: Result<TypeExpr, ParseError>)
      requires Valid()
      modifies this`cursor
      ensures Valid() && cursor >= old(cursor) && (result.Ok? ==> cursor > old(cursor))
      ensures Follows(ParseType(old(Rest())), result)
      decreases |tokens| - cursor, 0
    {
      hide ParsePath, ParseList, At;
      var tuple := Eat("(");
      if tuple {
        var items := TakeList(")");
        if items.Err? {
          return Err(items.error);
        }
        return Ok(Tuple(items.value));
      }
      var path := TakePath(true);
      if path.Err? {
        return Err(path.error);
      }
      ghost var before := Rest();
      var generic := Eat("<");
      if !generic {
        return Ok(Named(path.value, []));
      }
      var arguments := TakeList(">");
      if arguments.Err? {
        return Err(arguments.error);
      }
      return Ok(Named(path.value, arguments.value));
    }

    method TakeList(end: string) returns (result: Result<seq<TypeExpr>, ParseError>)
      requires Valid()
      modifies this`cursor
      ensures Valid() && cursor >= old(cursor) && Follows(ParseList(old(Rest()), end), result)
      decreases |tokens| - cursor, 1
    {
      hide ParseType, Joined, ParseList;
      var items: seq<TypeExpr> := [];
      ghost var expected := ParseList(Rest(), end);
      ghost var before := Rest();
      NothingBefore(Err(ParseError("", 0)), expected);
      var done := Eat(end);
      while !done
        invariant Valid() && old(cursor) <= cursor
        invariant done == At(before, end) && Rest() == if done then before[1..] else before
        invariant Joined(items, ParseList(before, end)) == expected
        decreases |tokens| - cursor, !done
      {
        ListStep(items, before, end);
        var item := TakeType();
        if item.Err? {
          return Err(item.error);
        }
        items := items + [item.value];
        ghost var after := Rest();
        done := Eat(end);
        if done {
          return Ok(items);
        }
        var comma := Eat(",");
        if !comma {
          return Err(ParseError(",", |tokens| - cursor));
        }
        before := Rest();
        done := Eat(end);
      }
      NoMore(items, before, end);
      result := Ok(items);
    }
  }

  lemma NoSegments(head: seq<string>, rest: seq<Token>)
    requires !At(rest, "::")
    ensures Prefixed(head, ParseSegments(rest)) == Ok(Parsed(head, rest))
  {
    assert head + [] == head;
  }

  lemma NoMore(head: seq<TypeExpr>, rest: seq<Token>, end: string)
    requires At(rest, end)
    ensures Joined(head, ParseList(rest, end)) == Ok(Parsed(head, rest[1..]))
  {
    assert head + [] == head;
  }
}

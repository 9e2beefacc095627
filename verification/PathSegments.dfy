/** Path segments of local symbols: percent-encoded names, made unique among siblings. */
module PathSegments {
  import opened Decimals
  import opened Wrappers

  // ---------------------------------------------------------------- percent encoding

  type Byte = b: nat | b < 256

  /** The unreserved characters of section 2.3 of RFC 3986. */
  predicate Unreserved(code: nat) {
    || 'a' as int <= code <= 'z' as int || 'A' as int <= code <= 'Z' as int || '0' as int <= code <= '9' as int
    || code == '-' as int || code == '_' as int || code == '.' as int || code == '~' as int
  }

  const UPPER := "ABCDEFGHIJKLMNOPQRSTUVWXYZ"
  const LOWER := "abcdefghijklmnopqrstuvwxyz"
  const DIGITS := "0123456789"
  const SIGNS := "-_.~"

  /** The unreserved characters, one by one. */
  lemma UnreservedAre(ch: char)
    ensures Unreserved(ch as int) <==> ch in UPPER || ch in LOWER || ch in DIGITS || ch in SIGNS
  {
  }

  function HexDigit(d: nat): char
    requires d < 16
  {
    "0123456789ABCDEF"[d]
  }

  function HexValue(ch: char): (d: Option<nat>)
    ensures d.Some? ==> d.value < 16
  {
    if '0' <= ch <= '9' then Some(ch as int - '0' as int)
    else if 'A' <= ch <= 'F' then Some(ch as int - 'A' as int + 10)
    else None
  }

  function EncodeByte(b: Byte): string {
    if Unreserved(b) then [b as char] else ['%', HexDigit(b / 16), HexDigit(b % 16)]
  }

  function PercentEncode(name: seq<Byte>): string {
    if name == [] then "" else EncodeByte(name[0]) + PercentEncode(name[1..])
  }

  function PercentDecode(text: string): Option<seq<Byte>>
    decreases |text|
  {
    if text == "" then Some([])
    else if text[0] == '%' then
      if |text| < 3 then None
      else match (HexValue(text[1]), HexValue(text[2]), PercentDecode(text[3..]))
           case (Some(high), Some(low), Some(rest)) => Some([16 * high + low] + rest)
           case _ => None
    else if Unreserved(text[0] as int) then
      match PercentDecode(text[1..])
      case Some(rest) => Some([text[0] as int] + rest)
      case None => None
    else None
  }

  lemma HexRoundTrip(d: nat)
    requires d < 16
    ensures HexValue(HexDigit(d)) == Some(d)
  {
  }

  lemma {:induction false} DecodeByte(b: Byte, rest: string)
    ensures PercentDecode(EncodeByte(b) + rest) ==
      match PercentDecode(rest) case Some(name) => Some([b] + name) case None => None
  {
    var text := EncodeByte(b) + rest;
    if Unreserved(b) {
      assert text[0] == b as char && text[1..] == rest;
    } else {
      hide HexDigit, HexValue, Unreserved;
      HexRoundTrip(b / 16);
      HexRoundTrip(b % 16);
      assert text[0] == '%' && text[1] == HexDigit(b / 16) && text[2] == HexDigit(b % 16) && text[3..] == rest;
    }
  }

  /** Encoding loses nothing, so it is injective. */
  lemma {:induction false} EncodingDecodes(name: seq<Byte>)
    ensures PercentDecode(PercentEncode(name)) == Some(name)
  {
    if name != [] {
      hide PercentDecode, EncodeByte;
      EncodingDecodes(name[1..]);
      DecodeByte(name[0], PercentEncode(name[1..]));
      assert [name[0]] + name[1..] == name;
    } else {
      assert PercentDecode("") == Some([]);
    }
  }

  lemma EncodingInjective(a: seq<Byte>, b: seq<Byte>)
    ensures PercentEncode(a) == PercentEncode(b) <==> a == b
  {
    EncodingDecodes(a);
    EncodingDecodes(b);
  }

  ghost predicate SegmentSafe(text: string) {
    forall i :: 0 <= i < |text| ==> (text[i] == '%' || Unreserved(text[i] as int)) && text[i] != '/'
  }

  lemma SafeConcat(a: string, b: string)
    requires SegmentSafe(a) && SegmentSafe(b)
    ensures SegmentSafe(a + b) && ('-' in a + b ==> '-' in a || '-' in b)
  {
  }

  lemma ByteIsSafe(b: Byte)
    ensures SegmentSafe(EncodeByte(b)) && ('-' in EncodeByte(b) ==> b == '-' as int)
  {
  }

  /** Only unreserved characters and percent signs come out; a hyphen only where the name has one. */
  lemma {:induction false} EncodingIsSafe(name: seq<Byte>)
    ensures SegmentSafe(PercentEncode(name))
    ensures '-' in PercentEncode(name) ==> '-' as int in name
  {
    if name != [] {
      hide EncodeByte, SegmentSafe;
      EncodingIsSafe(name[1..]);
      ByteIsSafe(name[0]);
      SafeConcat(EncodeByte(name[0]), PercentEncode(name[1..]));
    }
  }

  // ---------------------------------------------------------------- sibling segments

  /** A symbol with what identifies it among its siblings and the symbols it owns. */
  datatype Symbol = Symbol(id: nat, external: bool, base: string, children: seq<Symbol>)

  datatype Child = Child(symbol: Symbol, occurrence: nat, segment: string)

  function SegmentOf(base: string, occurrence: nat): string {
    if occurrence == 0 then base else base + "-duplicate-" + Decimal(occurrence)
  }

  function Occurrences(symbols: seq<Symbol>, base: string): nat {
    if symbols == [] then 0
    else
      var last := symbols[|symbols| - 1];
      Occurrences(symbols[..|symbols| - 1], base) + if !last.external && last.base == base then 1 else 0
  }

  /** The local symbols in order, each with its segment. */
  function Canonical(symbols: seq<Symbol>): seq<Child> {
    if symbols == [] then []
    else
      var front, last := symbols[..|symbols| - 1], symbols[|symbols| - 1];
      if last.external then Canonical(front)
      else
        var occurrence := Occurrences(front, last.base);
        Canonical(front) + [Child(last, occurrence, SegmentOf(last.base, occurrence))]
  }

  method CanonicalChildren(symbols: seq<Symbol>) returns (children: seq<Child>)
    ensures children == Canonical(symbols)
  {
    var occurrences: map<string, nat> := map[];
    children := [];
    for i := 0 to |symbols|
      invariant children == Canonical(symbols[..i])
      invariant forall base :: Occurrences(symbols[..i], base) == if base in occurrences then occurrences[base] else 0
    {
      assert symbols[..i + 1][..i] == symbols[..i];
      var symbol := symbols[i];
      if !symbol.external {
        var base := symbol.base;
        var occurrence := if base in occurrences then occurrences[base] else 0;
        var segment := if occurrence == 0 then base else base + "-duplicate-" + Decimal(occurrence);
        children := children + [Child(symbol, occurrence, segment)];
        occurrences := occurrences[base := occurrence + 1];
      }
    }
    assert symbols[..|symbols|] == symbols;
  }

  ghost predicate SegmentsDistinct(children: seq<Child>) {
    forall i, j :: 0 <= i < j < |children| ==> children[i].segment != children[j].segment
  }

  /** Some local symbol is named like the numbered segment of a repeated base. */
  ghost predicate Ambiguous(symbols: seq<Symbol>) {
    exists base, n, symbol :: Clashes(symbols, base, n, symbol)
  }

  ghost predicate Clashes(symbols: seq<Symbol>, base: string, n: nat, symbol: Symbol) {
    1 <= n < Occurrences(symbols, base) && symbol in symbols && !symbol.external && symbol.base == SegmentOf(base, n)
  }

  ghost predicate Holds(children: seq<Child>, base: string, n: nat) {
    exists k :: 0 <= k < |children| && children[k].symbol.base == base && children[k].occurrence == n
  }

  lemma HoldsSnoc(children: seq<Child>, child: Child, base: string, n: nat)
    ensures Holds(children + [child], base, n)
       <==> Holds(children, base, n) || (child.symbol.base == base && child.occurrence == n)
  {
    var longer := children + [child];
    assert longer[|children|] == child;
    assert forall k :: 0 <= k < |children| ==> longer[k] == children[k];
  }

  lemma OccurrencesSnoc(front: seq<Symbol>, last: Symbol, base: string)
    ensures Occurrences(front + [last], base) == Occurrences(front, base) +
      if !last.external && last.base == base then 1 else 0
  {
    assert (front + [last])[..|front|] == front;
  }

  lemma CanonicalSnoc(front: seq<Symbol>, last: Symbol)
    ensures Canonical(front + [last]) == Canonical(front) +
      if last.external then []
      else [Child(last, Occurrences(front, last.base), SegmentOf(last.base, Occurrences(front, last.base)))]
  {
    assert (front + [last])[..|front|] == front;
    if last.external {
      assert Canonical(front) + [] == Canonical(front);
    }
  }

  ghost predicate IsChild(symbols: seq<Symbol>, child: Child) {
    && child.symbol in symbols && !child.symbol.external
    && child.occurrence < Occurrences(symbols, child.symbol.base)
    && child.segment == SegmentOf(child.symbol.base, child.occurrence)
  }

  /** Children are local symbols, and equal bases are numbered upwards. */
  lemma {:induction false} CanonicalNumbers(symbols: seq<Symbol>)
    ensures var children := Canonical(symbols);
      && (forall k :: 0 <= k < |children| ==> IsChild(symbols, children[k]))
      && (forall i, j :: 0 <= i < j < |children| && children[i].symbol.base == children[j].symbol.base ==>
            children[i].occurrence < children[j].occurrence)
  {
    if symbols != [] {
      hide SegmentOf, Canonical, Occurrences;
      var front, last := symbols[..|symbols| - 1], symbols[|symbols| - 1];
      CanonicalNumbers(front);
      assert symbols == front + [last];
      CanonicalSnoc(front, last);
      var before, children := Canonical(front), Canonical(symbols);
      assert forall k :: 0 <= k < |before| ==> children[k] == before[k];
      forall k | 0 <= k < |children|
        ensures IsChild(symbols, children[k])
      {
        OccurrencesSnoc(front, last, children[k].symbol.base);
        assert k < |before| ==> IsChild(front, before[k]);
      }
      assert forall k :: 0 <= k < |before| ==> IsChild(front, before[k]);
    } else {
      assert Canonical(symbols) == [];
    }
  }

  /** `ix` names the symbols the children stand for: all local ones, in order. */
  ghost predicate Lists(symbols: seq<Symbol>, children: seq<Child>, ix: seq<nat>) {
    && |ix| == |children|
    && (forall k, l :: 0 <= k < l < |ix| ==> ix[k] < ix[l])
    && (forall k :: 0 <= k < |ix| ==> ix[k] < |symbols| && children[k].symbol == symbols[ix[k]])
    && (forall i :: 0 <= i < |symbols| ==> (i in ix <==> !symbols[i].external))
  }

  /** A first bearer of a base has the base itself as segment, a later one its number behind it. */
  ghost predicate Labelled(child: Child) {
    child.segment == if child.occurrence == 0 then child.symbol.base
                     else child.symbol.base + "-duplicate-" + Decimal(child.occurrence)
  }

  lemma ListsGrow(front: seq<Symbol>, last: Symbol, children: seq<Child>, ix: seq<nat>, child: Child)
    requires Lists(front, children, ix) && child.symbol == last
    ensures last.external ==> Lists(front + [last], children, ix)
    ensures !last.external ==> Lists(front + [last], children + [child], ix + [|front|])
  {
    var symbols, longer := front + [last], ix + [|front|];
    assert forall i :: 0 <= i < |front| ==> symbols[i] == front[i];
    assert forall i :: i in longer <==> i in ix || i == |front|;
  }

  /** Every local symbol has one child, in order, with the segment its number gives it. */
  lemma {:induction false} CanonicalLists(symbols: seq<Symbol>) returns (ix: seq<nat>)
    ensures Lists(symbols, Canonical(symbols), ix)
    ensures forall k :: 0 <= k < |Canonical(symbols)| ==> Labelled(Canonical(symbols)[k])
  {
    ix := [];
    if symbols == [] {
      assert Canonical(symbols) == [];
    } else {
      hide Canonical, Occurrences, Labelled, Lists, SegmentOf;
      var n := |symbols| - 1;
      var front, last := symbols[..n], symbols[n];
      var number := Occurrences(front, last.base);
      var child := Child(last, number, SegmentOf(last.base, number));
      ix := CanonicalLists(front);
      assert symbols == front + [last];
      CanonicalSnoc(front, last);
      ListsGrow(front, last, Canonical(front), ix, child);
      SegmentLabels(last, number);
      assert Canonical(front) + [] == Canonical(front);
      if !last.external {
        ix := ix + [n];
      }
    }
  }

  lemma SegmentLabels(symbol: Symbol, number: nat)
    ensures Labelled(Child(symbol, number, SegmentOf(symbol.base, number)))
  {
  }

  /** Numbers are given out without gaps. */
  lemma {:induction false} NumbersFilled(symbols: seq<Symbol>, base: string, n: nat)
    requires n < Occurrences(symbols, base)
    ensures Holds(Canonical(symbols), base, n)
  {
    hide SegmentOf, Holds, Canonical;
    var front, last := symbols[..|symbols| - 1], symbols[|symbols| - 1];
    assert symbols == front + [last];
    CanonicalSnoc(front, last);
    if n < Occurrences(front, base) {
      NumbersFilled(front, base, n);
      assert Canonical(front) + [] == Canonical(front);
    }
    if !last.external {
      var number := Occurrences(front, last.base);
      HoldsSnoc(Canonical(front), Child(last, number, SegmentOf(last.base, number)), base, n);
    }
  }

  // ---------------------------------------------------------------- when segments are distinct

  lemma NumberedSegment(base: string, n: nat)
    requires n > 0
    ensures SegmentOf(base, n) == (base + "-duplicate") + "-" + Decimal(n)
  {
    assert "-duplicate-" == "-duplicate" + "-";
  }

  lemma NumberedInjective(a: string, m: nat, b: string, n: nat)
    requires m > 0 && n > 0 && SegmentOf(a, m) == SegmentOf(b, n)
    ensures a == b && m == n
  {
    NumberedSegment(a, m);
    NumberedSegment(b, n);
    NumbersHaveNoHyphen(m);
    NumbersHaveNoHyphen(n);
    LastHyphenSplits(a + "-duplicate", Decimal(m), b + "-duplicate", Decimal(n));
    DecimalInjective(m, n);
    assert (a + "-duplicate")[..|a|] == a && (b + "-duplicate")[..|b|] == b;
  }

  /** Sibling segments are pairwise distinct exactly when no symbol's own base is the
      numbered segment of another, repeated base. */
  lemma DistinctIffUnambiguous(symbols: seq<Symbol>)
    ensures SegmentsDistinct(Canonical(symbols)) <==> !Ambiguous(symbols)
  {
    hide SegmentOf, Canonical;
    var children := Canonical(symbols);
    CanonicalNumbers(symbols);
    if !Ambiguous(symbols) {
      forall i, j | 0 <= i < j < |children|
        ensures children[i].segment != children[j].segment
      {
        if children[i].segment == children[j].segment {
          DistinctPair(symbols, children[i], children[j]);
        }
      }
    } else {
      var base, n, symbol :| Clashes(symbols, base, n, symbol);
      NumbersFilled(symbols, base, n);
      var i :| 0 <= i < |children| && children[i].symbol.base == base && children[i].occurrence == n;
      OccursItself(symbols, symbol);
      NumbersFilled(symbols, symbol.base, 0);
      var j :| 0 <= j < |children| && children[j].symbol.base == symbol.base && children[j].occurrence == 0;
      assert children[j].segment == SegmentOf(symbol.base, 0) == symbol.base by {
        PlainSegment(symbol.base);
      }
      assert children[i].segment == children[j].segment && i != j;
    }
  }

  lemma PlainSegment(base: string)
    ensures SegmentOf(base, 0) == base
  {
  }

  lemma {:induction false} OccursItself(symbols: seq<Symbol>, symbol: Symbol)
    requires symbol in symbols && !symbol.external
    ensures Occurrences(symbols, symbol.base) > 0
  {
    var front, last := symbols[..|symbols| - 1], symbols[|symbols| - 1];
    assert symbols == front + [last];
    if symbol in front {
      OccursItself(front, symbol);
    }
  }

  /** Equal segments of two children mean the same base and number, unless one clashes with the other. */
  lemma DistinctPair(symbols: seq<Symbol>, a: Child, b: Child)
    requires !Ambiguous(symbols) && a.segment == b.segment
    requires a.symbol in symbols && !a.symbol.external && a.occurrence < Occurrences(symbols, a.symbol.base)
    requires b.symbol in symbols && !b.symbol.external && b.occurrence < Occurrences(symbols, b.symbol.base)
    requires a.segment == SegmentOf(a.symbol.base, a.occurrence) && b.segment == SegmentOf(b.symbol.base, b.occurrence)
    ensures a.symbol.base == b.symbol.base && a.occurrence == b.occurrence
  {
    PlainSegment(a.symbol.base);
    PlainSegment(b.symbol.base);
    if a.occurrence > 0 && b.occurrence > 0 {
      NumberedInjective(a.symbol.base, a.occurrence, b.symbol.base, b.occurrence);
    } else if a.occurrence > 0 {
      assert Clashes(symbols, a.symbol.base, a.occurrence, b.symbol);
    } else if b.occurrence > 0 {
      assert Clashes(symbols, b.symbol.base, b.occurrence, a.symbol);
    }
  }

  /** Why the numbering needs the shape of real bases: for arbitrary ones, two symbols named
      alike and a third named like the second's numbered segment collide. */
  lemma TakenNameCollides() returns (symbols: seq<Symbol>)
    ensures |symbols| == 3 && !SegmentsDistinct(Canonical(symbols))
  {
    var x, y, z := Symbol(0, false, "a", []), Symbol(1, false, "a", []), Symbol(2, false, "a-duplicate-1", []);
    symbols := [x, y, z];
    assert Occurrences(symbols, "a") >= 2 by {
      OccurrencesSnoc([], x, "a");
      OccurrencesSnoc([x], y, "a");
      OccurrencesSnoc([x, y], z, "a");
      assert [] + [x] == [x] && [x] + [y] == [x, y] && [x, y] + [z] == symbols;
    }
    assert z.base == SegmentOf("a", 1) by {
      assert Decimal(1) == "1";
      assert "a" + "-duplicate-" + "1" == "a-duplicate-1";
    }
    assert Clashes(symbols, "a", 1, z) by {
      assert symbols[2] == z;
    }
    DistinctIffUnambiguous(symbols);
  }

  // ---------------------------------------------------------------- the bases symbols really have

  const PREFIXES: seq<string> := [
    "value-fn", "type-struct", "type-enum", "type-variant", "value-variant-ctor", "type-trait", "type-alias",
    "value-const",
    "value-static", "impl", "type-module", "macro-def", "use", "type-intrinsic", "macro-invocation"]

  /** A kind prefix followed by the encoded name of an item (or a hash), which holds no hyphen. */
  ghost predicate RealBase(base: string) {
    exists i, name: seq<Byte> ::
      0 <= i < |PREFIXES| && '-' as int !in name && base == PREFIXES[i] + "-" + PercentEncode(name)
  }

  lemma PrefixEndings(i: nat)
    requires i < |PREFIXES|
    ensures var prefix := PREFIXES[i]; |prefix| >= 2 && !(prefix[|prefix| - 2] == 't' && prefix[|prefix| - 1] == 'e')
  {
  }

  lemma PrefixesAreNotNumbered(i: nat, base: string)
    requires i < |PREFIXES|
    ensures PREFIXES[i] != base + "-duplicate"
  {
    var numbered := base + "-duplicate";
    assert numbered[|numbered| - 2] == 't' && numbered[|numbered| - 1] == 'e';
    PrefixEndings(i);
  }

  lemma RealBaseIsNotNumbered(base: string, other: string, n: nat)
    requires RealBase(base) && n > 0
    ensures base != SegmentOf(other, n)
  {
    var i, name: seq<Byte> :|
      0 <= i < |PREFIXES| && '-' as int !in name && base == PREFIXES[i] + "-" + PercentEncode(name);
    if base == SegmentOf(other, n) {
      NumberedSegment(other, n);
      NumbersHaveNoHyphen(n);
      EncodingIsSafe(name);
      LastHyphenSplits(PREFIXES[i], PercentEncode(name), other + "-duplicate", Decimal(n));
      PrefixesAreNotNumbered(i, other);
    }
  }

  /** With the bases symbols really have, siblings never share a segment. */
  lemma {:induction false} RealSegmentsDistinct(symbols: seq<Symbol>)
    requires forall i :: 0 <= i < |symbols| && !symbols[i].external ==> RealBase(symbols[i].base)
    ensures SegmentsDistinct(Canonical(symbols))
  {
    hide RealBase, SegmentOf;
    forall base, n, symbol
      ensures !Clashes(symbols, base, n, symbol)
    {
      if Clashes(symbols, base, n, symbol) {
        RealBaseIsNotNumbered(symbol.base, base, n);
      }
    }
    DistinctIffUnambiguous(symbols);
  }

  lemma {:induction false} PrefixesHaveNoSlash(i: nat)
    requires i < |PREFIXES|
    ensures '/' !in PREFIXES[i]
  {
  }

  lemma RealBaseHasNoSlash(base: string)
    requires RealBase(base)
    ensures '/' !in base
  {
    var i, name: seq<Byte> :|
      0 <= i < |PREFIXES| && '-' as int !in name && base == PREFIXES[i] + "-" + PercentEncode(name);
    PrefixesHaveNoSlash(i);
    EncodingIsSafe(name);
  }
}

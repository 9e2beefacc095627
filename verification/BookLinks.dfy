/** Links between pages of the book: writing one relative to a page, and resolving it again. */
module BookLinks {
  import opened SlashPaths

  type Pieces = seq<string>

  // ---------------------------------------------------------------- writing a link

  /** How many leading pieces two lists have in common. */
  function Shared(a: Pieces, b: Pieces): (n: nat)
    ensures n <= |a| && n <= |b| && a[..n] == b[..n] && (n < |a| && n < |b| ==> a[n] != b[n])
  {
    if a == [] || b == [] || a[0] != b[0] then 0
    else
      var n := 1 + Shared(a[1..], b[1..]);
      assert a[..n] == [a[0]] + a[1..][..n - 1] && b[..n] == [b[0]] + b[1..][..n - 1];
      n
  }

  function Ups(n: nat): Pieces {
    seq(n, _ => "..")
  }

  function Joined(pieces: Pieces): string {
    if pieces == [] then "" else Slashed(pieces)
  }

  /** The directory a page is in. */
  function Directory(page: string): Pieces {
    Split(page)[..|Split(page)| - 1]
  }

  function Common(from: string, to: string): nat {
    Shared(Directory(from), Split(to))
  }

  function RelativeUrl(from: string, to: string): string {
    Joined(Ups(|Directory(from)| - Common(from, to)) + Split(to)[Common(from, to)..])
  }

  // ---------------------------------------------------------------- resolving a link

  predicate Plain(piece: string) {
    piece != "" && piece != "." && piece != ".."
  }

  function Follow(components: Pieces, piece: string): Pieces {
    if Plain(piece) then components + [piece]
    else if piece == ".." && components != [] then components[..|components| - 1]
    else components
  }

  function FollowAll(components: Pieces, pieces: Pieces): Pieces {
    if pieces == [] then components
    else Follow(FollowAll(components, pieces[..|pieces| - 1]), pieces[|pieces| - 1])
  }

  function Resolved(file: string, destination: string): string {
    Joined(FollowAll(Directory(file), Split(destination)))
  }

  method ResolveSourceLink(file: string, destination: string) returns (page: string)
    ensures page == Resolved(file, destination)
  {
    var components := Split(file);
    components := components[..|components| - 1];
    var pieces := Split(destination);
    for i := 0 to |pieces|
      invariant components == FollowAll(Directory(file), pieces[..i])
    {
      assert pieces[..i + 1][..i] == pieces[..i];
      if pieces[i] == "." || pieces[i] == "" {
      } else if pieces[i] == ".." {
        if components != [] {
          components := components[..|components| - 1];
        }
      } else {
        components := components + [pieces[i]];
      }
    }
    assert pieces[..|pieces|] == pieces;
    page := Joined(components);
  }

  // ---------------------------------------------------------------- the round trip

  lemma {:induction false} FollowConcat(components: Pieces, a: Pieces, b: Pieces)
    ensures FollowAll(components, a + b) == FollowAll(FollowAll(components, a), b)
  {
    if b == [] {
      assert a + b == a;
    } else {
      var n := |b| - 1;
      FollowConcat(components, a, b[..n]);
      assert (a + b)[..|a + b| - 1] == a + b[..n];
    }
  }

  lemma {:induction false} FollowUps(components: Pieces, n: nat)
    requires n <= |components|
    ensures FollowAll(components, Ups(n)) == components[..|components| - n]
  {
    if n > 0 {
      FollowUps(components, n - 1);
      assert Ups(n)[..n - 1] == Ups(n - 1);
    } else {
      assert components[..|components|] == components;
    }
  }

  ghost predicate AllPlain(pieces: Pieces) {
    forall i :: 0 <= i < |pieces| ==> Plain(pieces[i])
  }

  lemma {:induction false} FollowPlain(components: Pieces, pieces: Pieces)
    requires AllPlain(pieces)
    ensures FollowAll(components, pieces) == components + pieces
  {
    if pieces != [] {
      var n := |pieces| - 1;
      FollowPlain(components, pieces[..n]);
      assert (components + pieces[..n]) + [pieces[n]] == components + pieces;
    }
  }

  /** Pieces that are not plain never add a component, so the result is too short. */
  lemma {:induction false} FollowShrinks(components: Pieces, pieces: Pieces)
    ensures |FollowAll(components, pieces)| <= |components| + |pieces|
    ensures !AllPlain(pieces) ==> |FollowAll(components, pieces)| < |components| + |pieces|
  {
    if pieces != [] {
      var n := |pieces| - 1;
      FollowShrinks(components, pieces[..n]);
      if AllPlain(pieces[..n]) && Plain(pieces[n]) {
        assert forall i :: 0 <= i < n ==> Plain(pieces[..n][i]);
        assert AllPlain(pieces);
      }
    }
  }

  lemma {:induction false} FollowNoSlash(components: Pieces, pieces: Pieces)
    requires forall i :: 0 <= i < |components| ==> '/' !in components[i]
    requires forall i :: 0 <= i < |pieces| ==> '/' !in pieces[i]
    ensures forall i :: 0 <= i < |FollowAll(components, pieces)| ==> '/' !in FollowAll(components, pieces)[i]
  {
    if pieces != [] {
      FollowNoSlash(components, pieces[..|pieces| - 1]);
    }
  }

  lemma FollowNothing(components: Pieces)
    ensures FollowAll(components, [""]) == components
  {
    assert [""][..0] == [];
  }

  /** `n` is the length of the longest list both start with. */
  ghost predicate LongestShared(a: Pieces, b: Pieces, n: nat) {
    n <= |a| && n <= |b| && a[..n] == b[..n] && (n < |a| && n < |b| ==> a[n] != b[n])
  }

  /** The link climbs out of the directories below the first `n`, then follows the rest of `to`. */
  ghost predicate ClimbsTo(from: string, to: string, n: nat) {
    && n < |Split(from)| && n <= |Split(to)|
    && LongestShared(Split(from)[..|Split(from)| - 1], Split(to), n)
    && RelativeUrl(from, to) == Joined(seq(|Split(from)| - 1 - n, _ => "..") + Split(to)[n..])
  }

  /** A written link climbs out of the directories the pages do not share, and no further. */
  lemma WrittenLinkIs(from: string, to: string)
    ensures exists n :: ClimbsTo(from, to, n)
  {
    hide Split, Joined;
    var n := Common(from, to);
    assert Ups(|Directory(from)| - n) == seq(|Split(from)| - 1 - n, _ => "..");
    assert ClimbsTo(from, to, n);
  }

  /** Empty and `.` pieces of a link do nothing, wherever they stand. */
  lemma DotsVanish(components: Pieces, a: Pieces, piece: string, b: Pieces)
    requires piece == "" || piece == "."
    ensures FollowAll(components, a + [piece] + b) == FollowAll(components, a + b)
  {
    hide FollowAll;
    FollowConcat(components, a + [piece], b);
    FollowConcat(components, a, [piece]);
    FollowOne(FollowAll(components, a), piece);
    FollowConcat(components, a, b);
  }

  lemma FollowOne(components: Pieces, piece: string)
    ensures FollowAll(components, [piece]) == Follow(components, piece)
  {
    assert [piece][..0] == [];
  }

  /** `..` takes back the piece before it, and nothing at the root. */
  lemma UpTakesBack(components: Pieces, a: Pieces, piece: string, b: Pieces)
    requires Plain(piece)
    ensures FollowAll(components, a + [piece, ".."] + b) == FollowAll(components, a + b)
    ensures FollowAll([], [".."] + b) == FollowAll([], b)
  {
    hide FollowAll;
    var reached := FollowAll(components, a);
    FollowConcat(components, a + [piece, ".."], b);
    FollowConcat(components, a, [piece, ".."]);
    FollowConcat(reached, [piece], [".."]);
    assert [piece] + [".."] == [piece, ".."];
    FollowOne(reached, piece);
    FollowOne(reached + [piece], "..");
    FollowConcat(components, a, b);
    FollowConcat([], [".."], b);
    FollowOne([], "..");
  }

  /** Resolving the written link walks the directory of `from` back to what both pages share, then along `to`. */
  lemma WrittenLinkLeads(from: string, to: string)
    ensures var n := Common(from, to);
      FollowAll(Directory(from), Split(RelativeUrl(from, to))) == FollowAll(Split(to)[..n], Split(to)[n..])
  {
    hide FollowAll, Split, Slashed;
    var directory, n, target := Directory(from), Common(from, to), Split(to);
    var ups := |directory| - n;
    var pieces := Ups(ups) + target[n..];
    PiecesHaveNoSlash(to);
    FollowUps(directory, ups);
    assert directory[..n] == target[..n];
    FollowConcat(directory, Ups(ups), target[n..]);
    if pieces != [] {
      SplitSlashed(pieces);
    } else {
      SplitPlain("");
      FollowNothing(directory);
      assert target[n..] == [] && Ups(ups) == [];
      FollowUps(directory, 0);
      assert Ups(0) == [];
    }
  }

  /** A written link leads back to its page exactly when what `to` adds to the shared
      directories has no empty, `.` or `..` piece, or `to` is empty. */
  lemma LinkLeadsBackIff(from: string, to: string)
    ensures Resolved(from, RelativeUrl(from, to)) == to <==> AllPlain(Split(to)[Common(from, to)..]) || to == ""
  {
    hide FollowAll, Split, Slashed, Plain;
    var n, target := Common(from, to), Split(to);
    var reached := FollowAll(target[..n], target[n..]);
    WrittenLinkLeads(from, to);
    SlashedSplit(to);
    PiecesHaveNoSlash(to);
    assert target[..n] + target[n..] == target;
    FollowShrinks(target[..n], target[n..]);
    FollowNoSlash(target[..n], target[n..]);
    if AllPlain(target[n..]) {
      FollowPlain(target[..n], target[n..]);
    } else if to == "" {
      SplitPlain("");
      assert reached == [];
    } else if reached != [] {
      SplitSlashed(reached);
    }
  }
}

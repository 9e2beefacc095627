/** Texts as lists of pieces between slashes. */
module SlashPaths {
  /** The pieces of a text between slashes; there is always at least one. */
  function Split(text: string): (pieces: seq<string>)
    ensures |pieces| > 0
  {
    if text == "" then [""]
    else
      var later := Split(text[1..]);
      if text[0] == '/' then [""] + later else [[text[0]] + later[0]] + later[1..]
  }

  function Slashed(segments: seq<string>): string
    requires segments != []
    decreases |segments|
  {
    if |segments| == 1 then segments[0] else segments[0] + "/" + Slashed(segments[1..])
  }

  lemma {:induction false} SplitPlain(piece: string)
    requires '/' !in piece
    ensures Split(piece) == [piece]
  {
    if piece != "" {
      SplitPlain(piece[1..]);
      assert [piece[0]] + piece[1..] == piece;
    }
  }

  lemma {:induction false} SplitFirst(piece: string, rest: string)
    requires '/' !in piece
    ensures Split(piece + "/" + rest) == [piece] + Split(rest)
  {
    var text := piece + "/" + rest;
    if piece == "" {
      assert text[1..] == rest;
    } else {
      SplitFirst(piece[1..], rest);
      assert text[1..] == piece[1..] + "/" + rest;
      assert [piece[0]] + piece[1..] == piece;
    }
  }

  lemma {:induction false} SplitSlashed(segments: seq<string>)
    requires segments != [] && forall i :: 0 <= i < |segments| ==> '/' !in segments[i]
    ensures Split(Slashed(segments)) == segments
    decreases |segments|
  {
    if |segments| == 1 {
      SplitPlain(segments[0]);
    } else {
      SplitSlashed(segments[1..]);
      SplitFirst(segments[0], Slashed(segments[1..]));
      assert [segments[0]] + segments[1..] == segments;
    }
  }

  lemma {:induction false} SlashedSplit(text: string)
    ensures Slashed(Split(text)) == text
  {
    if text != "" {
      var later := Split(text[1..]);
      SlashedSplit(text[1..]);
      if text[0] == '/' {
        assert ([""] + later)[1..] == later;
        assert text == "" + "/" + text[1..];
      } else {
        var pieces := [[text[0]] + later[0]] + later[1..];
        assert pieces[1..] == later[1..];
        assert text == [text[0]] + text[1..];
      }
    }
  }

  lemma {:induction false} PiecesHaveNoSlash(text: string)
    ensures forall i :: 0 <= i < |Split(text)| ==> '/' !in Split(text)[i]
  {
    if text != "" {
      PiecesHaveNoSlash(text[1..]);
      var later := Split(text[1..]);
      if text[0] == '/' {
        assert forall i :: 1 <= i < |Split(text)| ==> Split(text)[i] == later[i - 1];
      } else {
        assert '/' !in later[0];
        assert forall i :: 1 <= i < |Split(text)| ==> Split(text)[i] == later[i];
      }
    }
  }
}

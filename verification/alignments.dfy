/** The three alignment strategies. Each pads a cell's text with spaces up
    to a target width; none of them ever truncates, so the target width must
    be at least the text's length (AlignColumns.js throws a RangeError from
    `' '.repeat` with a negative count otherwise). */
module Alignments {
  import opened Strings

  datatype Alignment = Left | Right | Center

  /** The strategy a table uses when none is given. */
  const DefaultAlignment: Alignment := Left

  /** `content` padded with spaces to exactly `width` characters; where the
      spaces go is stated by `ApplyLayout`. */
  function Apply(a: Alignment, content: string, width: nat): (r: string)
    requires |content| <= width
    ensures |r| == width
  {
    var padding := width - |content|;
    match a
    case Left => content + Spaces(padding)
    case Right => Spaces(padding) + content
    case Center =>
      var leftSpaces := (padding + 1) / 2;  // Math.ceil(padding / 2)
      var rightSpaces := padding - leftSpaces;
      Spaces(leftSpaces) + content + Spaces(rightSpaces)
  }

  /** Where the text and the spaces of a padded cell are. Left puts the text
      first, Right puts it last, and Center puts `floor(d / 2)` spaces on the
      right and the rest (one more when `d` is odd) on the left, `d` being
      the padding added. */
  lemma ApplyLayout(a: Alignment, content: string, width: nat)
    requires |content| <= width
    ensures a == Left ==>
      var r := Apply(a, content, width);
      r[..|content|] == content && AllSpaces(r[|content|..])
    ensures a == Right ==>
      var r := Apply(a, content, width);
      AllSpaces(r[..width - |content|]) && r[width - |content|..] == content
    ensures a == Center ==>
      var r := Apply(a, content, width);
      var d := width - |content|;
      var left := d - d / 2;
      && AllSpaces(r[..left])
      && r[left..left + |content|] == content
      && AllSpaces(r[left + |content|..])
  {
  }

  /** Padding text that already has the target width changes nothing. */
  lemma ApplyAtOwnWidth(a: Alignment, content: string)
    ensures Apply(a, content, |content|) == content
  {
    var r := Apply(a, content, |content|);
    ApplyLayout(a, content, |content|);
    if a == Center {
      assert r[0..|content|] == r;
    }
  }

  /** Padding empty text gives a run of spaces, whatever the strategy. */
  lemma ApplyEmpty(a: Alignment, width: nat)
    ensures Apply(a, "", width) == Spaces(width)
  {
    var r := Apply(a, "", width);
    ApplyLayout(a, "", width);
    assert AllSpaces(r) by {
      match a
      case Left => assert r[0..] == r;
      case Right => assert r[..width] == r;
      case Center =>
        var left := width - width / 2;
        assert r == r[..left] + r[left..];
        assert r[left + 0..] == r[left..];
    }
    AllSpacesIsSpaces(r);
  }

  /** Every character of a padded cell is a space or comes from the text. */
  lemma ApplyCharacters(a: Alignment, content: string, width: nat, d: char)
    requires |content| <= width
    requires d in Apply(a, content, width)
    ensures d == ' ' || d in content
  {
    var r := Apply(a, content, width);
    ApplyLayout(a, content, width);
    match a
    case Left =>
      assert r[0..|content|] == r[..|content|];
      FramedCharacters(r, content, 0, d);
    case Right =>
      var p := width - |content|;
      assert r[p..p + |content|] == r[p..];
      assert r[p + |content|..] == [];
      FramedCharacters(r, content, p, d);
    case Center =>
      var p := width - |content|;
      FramedCharacters(r, content, p - p / 2, d);
  }

  /** A string made of spaces, then `content` at `p`, then spaces holds only
      spaces and characters of `content`. */
  lemma FramedCharacters(r: string, content: string, p: nat, d: char)
    requires p + |content| <= |r|
    requires AllSpaces(r[..p])
    requires r[p..p + |content|] == content
    requires AllSpaces(r[p + |content|..])
    requires d in r
    ensures d == ' ' || d in content
  {
    var k :| 0 <= k < |r| && r[k] == d;
    if k < p {
      assert r[..p][k] == d;
    } else if k < p + |content| {
      assert r[p..p + |content|][k - p] == d;
    } else {
      assert r[p + |content|..][k - p - |content|] == d;
    }
  }
}

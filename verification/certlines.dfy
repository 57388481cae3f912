/**
  Selection of the certificate block from the lines of a PEM file, as done
  before the thumbprint is computed: collection starts at the first line
  containing `BEGIN CERTIFICATE` and stops after the first line containing
  `END CERTIFICATE`; an END line ends the scan even before any BEGIN line.
*/
module CertLines {

  newtype byte = b: int | 0 <= b < 256

  /** One line as read in binary mode, line terminator included. */
  type Line = seq<byte>

  /** The bytes of an ASCII string literal. */
  function AsciiBytes(s: string): (r: seq<byte>)
    requires forall i :: 0 <= i < |s| ==> s[i] as int < 128
    ensures |r| == |s|
  {
    seq(|s|, i requires 0 <= i < |s| => s[i] as int as byte)
  }

  const BeginMarker: seq<byte> := AsciiBytes("BEGIN CERTIFICATE")

  const EndMarker: seq<byte> := AsciiBytes("END CERTIFICATE")

  predicate StartsWith(line: Line, pat: seq<byte>) {
    |pat| <= |line| && line[..|pat|] == pat
  }

  /** Python's `pat in line` on bytes, by scanning the start positions left to right. */
  predicate Contains(line: Line, pat: seq<byte>)
    decreases |line|
  {
    StartsWith(line, pat) || (line != [] && Contains(line[1..], pat))
  }

  /** `pat` occurs in `line` starting at position `k`. */
  predicate OccursAt(line: Line, pat: seq<byte>, k: int) {
    0 <= k && k + |pat| <= |line| && line[k..k + |pat|] == pat
  }

  /** The scan agrees with the definition of a substring: some start position matches. */
  lemma {:induction false} ContainsIffOccurs(line: Line, pat: seq<byte>)
    ensures Contains(line, pat) <==> exists k :: OccursAt(line, pat, k)
    decreases |line|
  {
    if line != [] {
      ContainsIffOccurs(line[1..], pat);
      if exists k :: OccursAt(line[1..], pat, k) {
        var k :| OccursAt(line[1..], pat, k);
        assert line[k + 1..k + 1 + |pat|] == line[1..][k..k + |pat|];
        assert OccursAt(line, pat, k + 1);
      }
      if k :| OccursAt(line, pat, k) && k > 0 {
        assert line[1..][k - 1..k - 1 + |pat|] == line[k..k + |pat|];
        assert OccursAt(line[1..], pat, k - 1);
      }
    }
    if exists k :: OccursAt(line, pat, k) {
      var k :| OccursAt(line, pat, k);
      if k == 0 {
        assert StartsWith(line, pat);
      }
    }
    if StartsWith(line, pat) {
      assert OccursAt(line, pat, 0);
    }
  }

  /** The index of the first line containing `marker`, or the number of lines when none does. */
  function FirstWith(lines: seq<Line>, marker: seq<byte>): (k: nat)
    ensures k <= |lines|
    ensures forall j :: 0 <= j < k ==> !Contains(lines[j], marker)
    ensures k < |lines| ==> Contains(lines[k], marker)
    decreases |lines|
  {
    if lines == [] then 0
    else if Contains(lines[0], marker) then 0
    else 1 + FirstWith(lines[1..], marker)
  }

  /**
    The reference selection: from the first BEGIN line through the first END
    line (or to the end of the input when there is none), and nothing when
    the first END line comes before every BEGIN line.
  */
  function CertSlice(lines: seq<Line>): seq<Line> {
    var b := FirstWith(lines, BeginMarker);
    if b <= FirstWith(lines, EndMarker) then lines[b..SelectionEnd(lines)] else []
  }

  /** The line-collection loop of the thumbprint routine. */
  method CollectCertLines(lines: seq<Line>) returns (cert: seq<Line>)
    ensures cert == CertSlice(lines)
  {
    ghost var b := FirstWith(lines, BeginMarker);
    ghost var e := FirstWith(lines, EndMarker);
    cert := [];
    var inCert := false;
    var i := 0;
    while i < |lines|
      invariant i <= e
      invariant inCert <==> b < i
      invariant cert == if b < i then lines[b..i] else []
    {
      var line := lines[i];
      if Contains(line, BeginMarker) {
        assert b <= i;
        inCert := true;
      }
      if inCert {
        assert lines[b..i + 1] == lines[b..i] + [line];
        cert := cert + [line];
      }
      if Contains(line, EndMarker) {
        assert i == e;
        break;
      }
      i := i + 1;
    }
  }

  /** One past the last line selected: the line after the first END line, or the end of the input. */
  function SelectionEnd(lines: seq<Line>): (hi: nat)
    ensures hi <= |lines|
  {
    var e := FirstWith(lines, EndMarker);
    if e < |lines| then e + 1 else |lines|
  }

  /** The selection runs from the first BEGIN line to `SelectionEnd`, or is empty when END comes first. */
  lemma CertSliceCases(lines: seq<Line>)
    ensures var b := FirstWith(lines, BeginMarker);
      if b <= FirstWith(lines, EndMarker)
      then b <= SelectionEnd(lines) && CertSlice(lines) == lines[b..SelectionEnd(lines)]
      else CertSlice(lines) == []
  {
  }

  /** The selection is a contiguous run of the input lines. */
  lemma CertSliceContiguous(lines: seq<Line>)
    ensures exists lo, hi :: 0 <= lo <= hi <= |lines| && CertSlice(lines) == lines[lo..hi]
  {
    CertSliceCases(lines);
    if FirstWith(lines, BeginMarker) > FirstWith(lines, EndMarker) {
      assert CertSlice(lines) == lines[0..0];
    }
  }

  /** A non-empty selection starts at the first line of the input containing BEGIN. */
  lemma CertSliceStartsAtBegin(lines: seq<Line>)
    ensures var cert := CertSlice(lines);
      cert != [] ==>
        && Contains(cert[0], BeginMarker)
        && cert[0] == lines[FirstWith(lines, BeginMarker)]
        && forall j :: 0 <= j < FirstWith(lines, BeginMarker) ==> !Contains(lines[j], BeginMarker)
  {
    CertSliceCases(lines);
  }

  /** No selected line but the last contains END. */
  lemma CertSliceEndOnlyLast(lines: seq<Line>)
    ensures var cert := CertSlice(lines);
      forall j :: 0 <= j < |cert| - 1 ==> !Contains(cert[j], EndMarker)
  {
    CertSliceCases(lines);
    var b := FirstWith(lines, BeginMarker);
    var e := FirstWith(lines, EndMarker);
    var cert := CertSlice(lines);
    forall j | 0 <= j < |cert| - 1
      ensures !Contains(cert[j], EndMarker)
    {
      assert cert[j] == lines[b + j] && b + j < e;
    }
  }

  /** When the input has an END line, a non-empty selection ends at the first one. */
  lemma CertSliceEndsAtEnd(lines: seq<Line>, k: int)
    requires 0 <= k < |lines| && Contains(lines[k], EndMarker)
    ensures var cert := CertSlice(lines);
      cert != [] ==> cert[|cert| - 1] == lines[FirstWith(lines, EndMarker)] && Contains(cert[|cert| - 1], EndMarker)
  {
    CertSliceCases(lines);
    assert FirstWith(lines, EndMarker) <= k;
  }

  /** When the input has no END line, the selection runs from the first BEGIN line to the end of the input. */
  lemma CertSliceWithoutEnd(lines: seq<Line>)
    requires forall j :: 0 <= j < |lines| ==> !Contains(lines[j], EndMarker)
    ensures CertSlice(lines) == lines[FirstWith(lines, BeginMarker)..|lines|]
  {
    assert SelectionEnd(lines) == |lines|;
  }

  /** The selection is empty exactly when every BEGIN line comes after some END line. */
  lemma CertSliceEmptyIff(lines: seq<Line>)
    ensures CertSlice(lines) == [] <==>
      forall j :: 0 <= j < |lines| && Contains(lines[j], BeginMarker) ==>
        exists k :: 0 <= k < j && Contains(lines[k], EndMarker)
  {
    CertSliceCases(lines);
    var b := FirstWith(lines, BeginMarker);
    var e := FirstWith(lines, EndMarker);
    if CertSlice(lines) == [] {
      forall j | 0 <= j < |lines| && Contains(lines[j], BeginMarker)
        ensures exists k :: 0 <= k < j && Contains(lines[k], EndMarker)
      {
        assert e < b <= j;
      }
    } else {
      assert b <= e && b < |lines|;
    }
  }
}

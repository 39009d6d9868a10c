/**
 The multipart/byteranges body of a ranged answer (section 14.6 of RFC 9110) is a multipart message:
 the parser of the other module gets from it each slice, with its place in the content in front of it.
 */
module ByteRanges {
  import opened Search
  import opened Http
  import opened Decimal
  import opened Multipart
  import opened MultipartProofs
  import opened MultipartItems
  import Ranges

  /** A slice with its type, if there is one, and its first and last position and the whole length. */
  function SlicePart(content: string, r: Ranges.Range, contentType: string): Part
    requires Ranges.Inside(r, |content|)
  {
    Part((if contentType == [] then [] else ["Content-Type: " + contentType])
         + ["Content-Range: bytes " + Print(r.first) + "-" + Print(r.last) + "/" + Print(|content|)],
         content[r.first..r.last + 1])
  }

  function SliceParts(content: string, ranges: seq<Ranges.Range>, contentType: string): (parts: seq<Part>)
    requires Ranges.AllInside(ranges, |content|)
    ensures |parts| == |ranges|
  {
    seq(|ranges|, i requires 0 <= i < |ranges| => SlicePart(content, ranges[i], contentType))
  }

  lemma HeadIs(content: string, r: Ranges.Range, boundary: string, contentType: string)
    requires Ranges.Inside(r, |content|)
    ensures Ranges.PartHead(r, boundary, contentType, |content|)
         == "--" + boundary + CRLF + (Lines(SlicePart(content, r, contentType).headers) + CRLF)
  {
    hide Print;
    var place := "Content-Range: bytes " + Print(r.first) + "-" + Print(r.last) + "/" + Print(|content|);
    assert "Content-Range: " + ("bytes " + Print(r.first) + "-" + Print(r.last) + "/" + Print(|content|)) == place by {
      assert "Content-Range: bytes " == "Content-Range: " + "bytes ";
    }
    LinesOfOne(place);
    if contentType == [] {
      assert "--" + boundary + CRLF + [] + "Content-Range: " == "--" + boundary + CRLF + "Content-Range: ";
      assert [] + [place] == [place];
      HeadOf("--" + boundary + CRLF, [], "Content-Range: ",
             "bytes " + Print(r.first) + "-" + Print(r.last) + "/" + Print(|content|));
    } else {
      var kind := "Content-Type: " + contentType;
      assert [kind] + [place] == [kind, place] && [kind, place][1..] == [place];
      HeadOf("--" + boundary + CRLF, kind + CRLF, "Content-Range: ",
             "bytes " + Print(r.first) + "-" + Print(r.last) + "/" + Print(|content|));
    }
  }

  lemma LinesOfOne(line: string)
    ensures Lines([line]) == line + CRLF
  {
    assert [line][1..] == [];
    assert line + CRLF + [] == line + CRLF;
  }

  lemma HeadOf(open: string, kind: string, name: string, place: string)
    ensures open + kind + name + place + CRLF + CRLF == open + (kind + (name + place + CRLF) + CRLF)
  {
  }

  lemma {:induction false} BodyIsMessage(s: Setup, content: string, ranges: seq<Ranges.Range>, contentType: string)
    requires ranges != [] && Ranges.AllInside(ranges, |content|)
    ensures Ranges.MultipartData(content, ranges, s.boundary, contentType)
         == s.Opening() + Tail(s, SliceParts(content, ranges, contentType), DASH)
    decreases |ranges|
  {
    hide Lines;
    hide SlicePart;
    hide Ranges.PartHead;
    var r, more := ranges[0], ranges[1..];
    var part := SlicePart(content, r, contentType);
    var mark := DASH + s.boundary;
    var rest := if more == [] then DASH else CRLF + Tail(s, SliceParts(content, more, contentType), DASH);
    assert Ranges.MultipartData(content, more, s.boundary, contentType) == mark + rest by {
      if more == [] {
        assert "--" + s.boundary + "--" == mark + DASH;
      } else {
        BodyIsMessage(s, content, more, contentType);
        assert mark + CRLF + Tail(s, SliceParts(content, more, contentType), DASH) == mark + rest;
      }
    }
    HeadIs(content, r, s.boundary, contentType);
    SliceIs(content, r, contentType);
    assert SliceParts(content, ranges, contentType)[1..] == SliceParts(content, more, contentType);
    assert s.Delimiter() == CRLF + mark;
    Interleave(mark + CRLF, Lines(part.headers), CRLF, part.content, mark, rest);
    assert mark + CRLF + (Lines(part.headers) + CRLF) == mark + CRLF + Lines(part.headers) + CRLF;
  }

  lemma SliceIs(content: string, r: Ranges.Range, contentType: string)
    requires Ranges.Inside(r, |content|)
    ensures SlicePart(content, r, contentType).content == Ranges.Sliced(content, r)
  {
  }

  /**
   However the body is split into calls, as long as the first one brings the first boundary: a client
   gets each slice with its place, if it accepts the header lines and no slice contains the delimiter.
   */
  lemma SlicesReadBack(s: Setup, content: string, ranges: seq<Ranges.Range>, contentType: string, chunks: seq<string>)
    requires ranges != [] && Ranges.AllInside(ranges, |content|)
    requires Good(s, SliceParts(content, ranges, contentType))
    requires Concat(chunks) == Ranges.MultipartData(content, ranges, s.boundary, contentType)
    requires chunks != [] && |chunks[0]| >= |s.Opening()|
    ensures var r := Feed(s, START, chunks);
      r.valid && !r.failed && r.parts == SliceParts(content, ranges, contentType)
  {
    hide Tail;
    hide Good;
    hide Feed;
    hide SlicePart;
    BodyIsMessage(s, content, ranges, contentType);
    assert DASH + [] == DASH;
    MessageFed(s, SliceParts(content, ranges, contentType), chunks, []);
  }
}

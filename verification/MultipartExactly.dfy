/** Which bodies `parse_multipart_formdata` (src/httplib.h:1132-1203) accepts: exactly those that
    consist of an opening line and whole parts, whatever else stands on the boundary lines. */
module MultipartExactly {
  import opened Prelude
  import opened Multipart

  /** A part as it stands in a body, with what follows the boundary on its line. */
  datatype Raw = Raw(headers: seq<seq<byte>>, content: seq<byte>, tail: seq<byte>)

  function RenderRaw(raws: seq<Raw>, d: seq<byte>): seq<byte> {
    if raws == [] then []
    else
      var raw := raws[0];
      RenderHeaders(raw.headers) + (raw.content + (d + (raw.tail + (CRLF + RenderRaw(raws[1..], d)))))
  }

  ghost predicate GoodRaw(raw: Raw, d: seq<byte>)
    requires d != []
  {
    GoodLines(raw.headers) && EndsAt(raw.content, d) && Lacks(raw.tail, CRLF)
  }

  ghost predicate GoodRaws(raws: seq<Raw>, d: seq<byte>)
    requires d != []
  {
    raws == [] || (GoodRaw(raws[0], d) && GoodRaws(raws[1..], d))
  }

  /** The file is this part of the body. */
  ghost predicate IsRaw(f: File, raw: Raw, body: seq<byte>) {
    && f.headers == raw.headers && f.offset + f.length <= |body|
    && body[f.offset..f.offset + f.length] == raw.content
  }

  ghost predicate AreRaws(files: seq<File>, raws: seq<Raw>, body: seq<byte>) {
    && |files| == |raws|
    && (files == [] || (IsRaw(files[0], raws[0], body) && AreRaws(files[1..], raws[1..], body)))
  }

  // ---------- such a body is accepted ----------

  lemma RawEnds(s: seq<byte>, d: seq<byte>, pos: nat, headers: seq<seq<byte>>, offset: nat, end: nat, tail: seq<byte>,
                rest: seq<byte>) returns (next: nat)
    requires d != [] && pos <= offset <= end && end + |d| <= |s|
    requires ReadHeaders(s, pos) == Lines(headers, offset) && Index(s, d, offset) == Some(end)
    requires s[end + |d|..] == tail + (CRLF + rest) && Lacks(tail, CRLF)
    ensures next <= |s| && PartAt(s, d, pos) == Some((File(headers, offset, end - offset), next)) && s[next..] == rest
  {
    LineRead(s, end + |d|, tail, rest);
    PartIs(s, d, pos, headers, offset, end, end + |d| + |tail|);
    next := end + |d| + |tail| + 2;
  }

  lemma RawRead(s: seq<byte>, d: seq<byte>, pos: nat, headers: seq<seq<byte>>, content: seq<byte>, tail: seq<byte>,
                rest: seq<byte>) returns (f: File, next: nat)
    requires d != [] && pos <= |s| && GoodLines(headers) && EndsAt(content, d) && Lacks(tail, CRLF)
    requires s[pos..] == RenderHeaders(headers) + (content + (d + (tail + (CRLF + rest))))
    ensures next <= |s| && PartAt(s, d, pos) == Some((f, next)) && s[next..] == rest
    ensures IsRaw(f, Raw(headers, content, tail), s)
  {
    var offset := TextRead(s, pos, headers, content, d, tail + (CRLF + rest));
    next := RawEnds(s, d, pos, headers, offset, offset + |content|, tail, rest);
    f := File(headers, offset, |content|);
  }

  lemma PartsStart(s: seq<byte>, d: seq<byte>, pos: nat, f: File, next: nat)
    requires d != [] && pos < |s| && next <= |s| && PartAt(s, d, pos) == Some((f, next))
    ensures var after := Parts(s, d, next); Parts(s, d, pos) == Parsed(after.ok, [f] + after.files)
  {
  }

  lemma RawsMore(f: File, files: seq<File>, raws: seq<Raw>, body: seq<byte>)
    requires raws != [] && IsRaw(f, raws[0], body) && AreRaws(files, raws[1..], body)
    ensures AreRaws([f] + files, raws, body)
  {
    assert ([f] + files)[1..] == files;
  }

  lemma {:induction false} RawsRead(s: seq<byte>, d: seq<byte>, pos: nat, raws: seq<Raw>)
    requires d != [] && pos <= |s| && s[pos..] == RenderRaw(raws, d) && GoodRaws(raws, d)
    ensures Parts(s, d, pos).ok && AreRaws(Parts(s, d, pos).files, raws, s)
    decreases |raws|
  {
    if raws != [] {
      var raw := raws[0];
      var f, next := RawRead(s, d, pos, raw.headers, raw.content, raw.tail, RenderRaw(raws[1..], d));
      RawsRead(s, d, next, raws[1..]);
      PartsStart(s, d, pos, f, next);
      RawsMore(f, Parts(s, d, next).files, raws, s);
    }
  }

  // ---------- an accepted body is such a body ----------

  lemma IndexOccurs(s: seq<byte>, d: seq<byte>, pos: nat, n: nat)
    requires d != [] && pos <= |s| && Index(s, d, pos) == Some(n)
    ensures pos <= n && Occurs(s, d, n)
  {
    IndexIsFirst(s, d, pos);
  }

  lemma LineStands(s: seq<byte>, pos: nat, n: nat)
    requires pos <= n && Occurs(s, CRLF, n)
    ensures s[pos..] == s[pos..n] + (CRLF + s[n + 2..])
  {
    Spliced(s, pos, n, n + 2);
  }

  /** A line that was found. */
  lemma LineFound(s: seq<byte>, pos: nat, n: nat)
    requires pos <= |s| && Index(s, CRLF, pos) == Some(n)
    ensures n + 2 <= |s| && s[pos..] == s[pos..n] + (CRLF + s[n + 2..]) && Lacks(s[pos..n], CRLF)
  {
    IndexOccurs(s, CRLF, pos, n);
    LineStands(s, pos, n);
    BeforeIndexLacks(s, CRLF, pos);
  }

  lemma Spliced(s: seq<byte>, a: nat, b: nat, c: nat)
    requires a <= b <= c <= |s|
    ensures s[a..] == s[a..b] + (s[b..c] + s[c..])
  {
  }

  lemma {:induction false} HeadersStand(s: seq<byte>, pos: nat, lines: seq<seq<byte>>, end: nat)
    requires pos <= |s| && ReadHeaders(s, pos) == Lines(lines, end)
    ensures end <= |s| && s[pos..] == RenderHeaders(lines) + s[end..]
    decreases |s| - pos
  {
    var n := Index(s, CRLF, pos).value;
    LineFound(s, pos, n);
    if n > pos {
      HeaderStep(s, pos, n);
      HeadersStand(s, n + 2, ReadHeaders(s, n + 2).lines, end);
      HeaderStands(s, pos, n, ReadHeaders(s, n + 2).lines, end);
    } else {
      assert s[pos..n] == [];
    }
  }

  lemma HeaderStands(s: seq<byte>, pos: nat, n: nat, lines: seq<seq<byte>>, end: nat)
    requires pos < n && n + 2 <= |s| && end <= |s| && s[pos..] == s[pos..n] + (CRLF + s[n + 2..])
    requires s[n + 2..] == RenderHeaders(lines) + s[end..]
    ensures s[pos..] == RenderHeaders([s[pos..n]] + lines) + s[end..]
  {
    assert ([s[pos..n]] + lines)[1..] == lines;
    FirstHeader([s[pos..n]] + lines, s[end..]);
  }

  lemma ContentStands(s: seq<byte>, d: seq<byte>, offset: nat, end: nat, n: nat)
    requires d != [] && offset <= end && Occurs(s, d, end) && Index(s, CRLF, end + |d|) == Some(n)
    ensures n + 2 <= |s| && Lacks(s[end + |d|..n], CRLF)
    ensures s[offset..] == s[offset..end] + (d + (s[end + |d|..n] + (CRLF + s[n + 2..])))
  {
    LineFound(s, end + |d|, n);
    Spliced(s, offset, end, end + |d|);
  }

  lemma TextStands(s: seq<byte>, d: seq<byte>, pos: nat, head: seq<byte>, offset: nat, end: nat, n: nat)
    requires d != [] && pos <= |s| && offset <= end && Occurs(s, d, end) && Index(s, CRLF, end + |d|) == Some(n)
    requires s[pos..] == head + s[offset..]
    ensures end + |d| <= n && n + 2 <= |s| && Lacks(s[end + |d|..n], CRLF)
    ensures s[pos..] == head + (s[offset..end] + (d + (s[end + |d|..n] + (CRLF + s[n + 2..]))))
  {
    ContentStands(s, d, offset, end, n);
  }

  lemma PartFound(s: seq<byte>, d: seq<byte>, pos: nat) returns (f: File, n: nat)
    requires d != [] && pos <= |s| && PartAt(s, d, pos).Some?
    ensures PartAt(s, d, pos) == Some((f, n + 2)) && ReadHeaders(s, pos) == Lines(f.headers, f.offset)
    ensures f.offset + f.length + |d| <= |s| && Index(s, CRLF, f.offset + f.length + |d|) == Some(n)
  {
    var h := ReadHeaders(s, pos);
    var end := Index(s, d, h.end).value;
    n := Index(s, CRLF, end + |d|).value;
    f := File(h.lines, h.end, end - h.end);
    PartIs(s, d, pos, h.lines, h.end, end, n);
  }

  lemma PartHead(s: seq<byte>, d: seq<byte>, pos: nat) returns (f: File, n: nat)
    requires d != [] && pos <= |s| && PartAt(s, d, pos).Some?
    ensures PartAt(s, d, pos) == Some((f, n + 2)) && IsSlice(f, s, d)
    ensures s[pos..] == RenderHeaders(f.headers) + s[f.offset..]
    ensures Index(s, CRLF, f.offset + f.length + |d|) == Some(n)
  {
    f, n := PartFound(s, d, pos);
    HeadersStand(s, pos, f.headers, f.offset);
    PartIsSlice(s, d, pos);
  }

  lemma SliceStands(s: seq<byte>, d: seq<byte>, pos: nat, f: File, n: nat) returns (raw: Raw)
    requires d != [] && pos <= |s| && IsSlice(f, s, d) && s[pos..] == RenderHeaders(f.headers) + s[f.offset..]
    requires Index(s, CRLF, f.offset + f.length + |d|) == Some(n)
    ensures n + 2 <= |s| && GoodRaw(raw, d)
    ensures s[pos..] == RenderHeaders(raw.headers) + (raw.content + (d + (raw.tail + (CRLF + s[n + 2..]))))
  {
    var end := f.offset + f.length;
    TextStands(s, d, pos, RenderHeaders(f.headers), f.offset, end, n);
    raw := Raw(f.headers, s[f.offset..end], s[end + |d|..n]);
  }

  lemma PartStands(s: seq<byte>, d: seq<byte>, pos: nat) returns (raw: Raw, f: File, n: nat)
    requires d != [] && pos <= |s| && PartAt(s, d, pos).Some?
    ensures PartAt(s, d, pos) == Some((f, n + 2)) && n + 2 <= |s| && GoodRaw(raw, d)
    ensures s[pos..] == RenderHeaders(raw.headers) + (raw.content + (d + (raw.tail + (CRLF + s[n + 2..]))))
  {
    f, n := PartHead(s, d, pos);
    raw := SliceStands(s, d, pos, f, n);
  }

  lemma PartsGoOn(s: seq<byte>, d: seq<byte>, pos: nat)
    requires d != [] && pos < |s| && Parts(s, d, pos).ok
    ensures PartAt(s, d, pos).Some? && Parts(s, d, PartAt(s, d, pos).value.1).ok
  {
  }

  lemma RawFirst(raw: Raw, more: seq<Raw>, d: seq<byte>)
    requires d != [] && GoodRaw(raw, d) && GoodRaws(more, d)
    ensures GoodRaws([raw] + more, d)
    ensures RenderRaw([raw] + more, d)
         == RenderHeaders(raw.headers) + (raw.content + (d + (raw.tail + (CRLF + RenderRaw(more, d)))))
  {
    assert ([raw] + more)[1..] == more;
  }

  lemma OneMoreStands(s: seq<byte>, d: seq<byte>, pos: nat, more: seq<Raw>) returns (raw: Raw)
    requires d != [] && pos <= |s| && PartAt(s, d, pos).Some? && GoodRaws(more, d)
    requires s[PartAt(s, d, pos).value.1..] == RenderRaw(more, d)
    ensures s[pos..] == RenderRaw([raw] + more, d) && GoodRaws([raw] + more, d)
  {
    var f, n;
    raw, f, n := PartStands(s, d, pos);
    RawFirst(raw, more, d);
  }

  lemma {:induction false} PartsStand(s: seq<byte>, d: seq<byte>, pos: nat) returns (raws: seq<Raw>)
    requires d != [] && pos <= |s| && Parts(s, d, pos).ok
    ensures s[pos..] == RenderRaw(raws, d) && GoodRaws(raws, d)
    decreases |s| - pos
  {
    raws := [];
    if pos < |s| {
      PartsGoOn(s, d, pos);
      var more := PartsStand(s, d, PartAt(s, d, pos).value.1);
      var raw := OneMoreStands(s, d, pos, more);
      raws := [raw] + more;
    }
  }

  // ---------- both ----------

  /** The body is an opening line, with something behind the boundary, and then these parts. */
  ghost predicate Consists(body: seq<byte>, boundary: seq<byte>, opening: seq<byte>, raws: seq<Raw>) {
    && body == (DASH + boundary) + (opening + (CRLF + RenderRaw(raws, Delimiter(boundary))))
    && Lacks(opening, CRLF) && GoodRaws(raws, Delimiter(boundary))
  }

  lemma StartRead(boundary: seq<byte>, body: seq<byte>, opening: seq<byte>, rest: seq<byte>)
    requires body == (DASH + boundary) + (opening + (CRLF + rest)) && Lacks(opening, CRLF)
    ensures Start(boundary, body).Some? && body[Start(boundary, body).value..] == rest
  {
    assert body[0..] == body;
    Over(body, 0, DASH + boundary, opening + (CRLF + rest));
    LineRead(body, |DASH + boundary|, opening, rest);
  }

  lemma StartStands(boundary: seq<byte>, body: seq<byte>) returns (opening: seq<byte>)
    requires Start(boundary, body).Some?
    ensures body == (DASH + boundary) + (opening + (CRLF + body[Start(boundary, body).value..])) && Lacks(opening, CRLF)
  {
    var m, n := |DASH + boundary|, Start(boundary, body).value - 2;
    opening := body[m..n];
    LineFound(body, m, n);
    assert body == body[..m] + body[m..];
  }

  lemma ConsistingIsAccepted(body: seq<byte>, boundary: seq<byte>, opening: seq<byte>, raws: seq<Raw>)
    requires Consists(body, boundary, opening, raws)
    ensures Parse(boundary, body).ok && AreRaws(Parse(boundary, body).files, raws, body)
  {
    var d := Delimiter(boundary);
    StartRead(boundary, body, opening, RenderRaw(raws, d));
    RawsRead(body, d, Start(boundary, body).value, raws);
  }

  /** A body is accepted exactly if it consists of an opening line and whole parts; and then the
      files are those parts. */
  lemma AcceptedExactly(boundary: seq<byte>, body: seq<byte>)
    ensures Parse(boundary, body).ok <==>
              exists opening: seq<byte>, raws: seq<Raw> :: Consists(body, boundary, opening, raws)
    ensures forall opening: seq<byte>, raws: seq<Raw> | Consists(body, boundary, opening, raws) ::
              AreRaws(Parse(boundary, body).files, raws, body)
  {
    if Parse(boundary, body).ok {
      var opening := StartStands(boundary, body);
      var raws := PartsStand(body, Delimiter(boundary), Start(boundary, body).value);
      assert Consists(body, boundary, opening, raws);
    }
    forall opening: seq<byte>, raws: seq<Raw> | Consists(body, boundary, opening, raws)
      ensures Parse(boundary, body).ok && AreRaws(Parse(boundary, body).files, raws, body)
    {
      ConsistingIsAccepted(body, boundary, opening, raws);
    }
  }
}

/** Multipart bodies (section 5.1.1 of RFC 2046) as `parse_multipart_formdata` of
    src/httplib.h slices them. Here a file keeps its header lines; what they say of it, and the
    multimap that the files go into, are in the method's contract. */
module Multipart {
  import opened Prelude
  import opened FormHeaders
  import opened Multimap

  const DASH: seq<byte> := ['-', '-']

  datatype File = File(headers: seq<seq<byte>>, offset: nat, length: nat)

  function Delimiter(boundary: seq<byte>): seq<byte> {
    CRLF + (DASH + boundary)
  }

  // ---------- std::string::find ----------

  predicate Occurs(s: seq<byte>, d: seq<byte>, i: nat) {
    i + |d| <= |s| && s[i..i + |d|] == d
  }

  ghost predicate Lacks(s: seq<byte>, d: seq<byte>) {
    forall i: nat :: !Occurs(s, d, i)
  }

  /** Where d occurs first in s at or behind pos. */
  function Index(s: seq<byte>, d: seq<byte>, pos: nat): (r: Option<nat>)
    requires d != [] && pos <= |s|
    ensures r.Some? ==> pos <= r.value && r.value + |d| <= |s|
    decreases |s| - pos
  {
    if |s| < pos + |d| then None
    else if Occurs(s, d, pos) then Some(pos)
    else Index(s, d, pos + 1)
  }

  lemma {:induction false} IndexIsFirst(s: seq<byte>, d: seq<byte>, pos: nat)
    requires d != [] && pos <= |s|
    ensures match Index(s, d, pos)
            case Some(n) => Occurs(s, d, n) && forall i | pos <= i < n :: !Occurs(s, d, i)
            case None => forall i | pos <= i :: !Occurs(s, d, i)
    decreases |s| - pos
  {
    if |s| >= pos + |d| && !Occurs(s, d, pos) {
      IndexIsFirst(s, d, pos + 1);
    }
  }

  lemma Slice(s: seq<byte>, a: nat, b: nat, i: nat, j: nat)
    requires a <= i <= j <= b <= |s|
    ensures s[a..b][i - a..j - a] == s[i..j]
  {
    assert |s[a..b][i - a..j - a]| == |s[i..j]|;
    assert forall k | 0 <= k < j - i :: s[a..b][i - a..j - a][k] == s[i..j][k];
  }

  /** The text before the first occurrence holds none itself. */
  lemma BeforeIndexLacks(s: seq<byte>, d: seq<byte>, pos: nat)
    requires d != [] && pos <= |s| && Index(s, d, pos).Some?
    ensures Lacks(s[pos..Index(s, d, pos).value], d)
  {
    var n := Index(s, d, pos).value;
    IndexIsFirst(s, d, pos);
    forall i: nat
      ensures !Occurs(s[pos..n], d, i)
    {
      if i + |d| <= n - pos {
        Slice(s, pos, n, pos + i, pos + i + |d|);
        assert !Occurs(s, d, pos + i);
      }
    }
  }

  /** Behind this text the delimiter is found where it was put, not earlier. */
  ghost predicate EndsAt(text: seq<byte>, d: seq<byte>)
    requires d != []
  {
    Index(text + d, d, 0) == Some(|text|)
  }

  lemma OccursInSlice(s: seq<byte>, d: seq<byte>, pos: nat, end: nat, i: nat)
    requires pos <= i && i + |d| <= end <= |s|
    ensures Occurs(s, d, i) <==> Occurs(s[pos..end], d, i - pos)
  {
    Slice(s, pos, end, i, i + |d|);
  }

  ghost predicate NoneIn(s: seq<byte>, d: seq<byte>, a: nat, b: nat) {
    forall i: nat | a <= i < b :: !Occurs(s, d, i)
  }

  lemma IndexIff(s: seq<byte>, d: seq<byte>, pos: nat, n: nat)
    requires d != [] && pos <= n && Occurs(s, d, n)
    ensures Index(s, d, pos) == Some(n) <==> NoneIn(s, d, pos, n)
  {
    IndexIsFirst(s, d, pos);
  }

  lemma NoneInSlice(s: seq<byte>, u: seq<byte>, d: seq<byte>, pos: nat, n: nat)
    requires d != [] && pos <= n && n + |d| <= |s| && u == s[pos..n + |d|]
    ensures NoneIn(s, d, pos, n) <==> NoneIn(u, d, 0, n - pos)
  {
    if NoneIn(s, d, pos, n) {
      forall i: nat | i < n - pos
        ensures !Occurs(u, d, i)
      {
        OccursInSlice(s, d, pos, n + |d|, pos + i);
      }
    }
    if NoneIn(u, d, 0, n - pos) {
      forall i: nat | pos <= i < n
        ensures !Occurs(s, d, i)
      {
        OccursInSlice(s, d, pos, n + |d|, i);
        assert !Occurs(u, d, i - pos);
      }
    }
  }

  lemma FoundInSlice(s: seq<byte>, u: seq<byte>, d: seq<byte>, pos: nat, n: nat)
    requires d != [] && pos <= n && Occurs(s, d, n) && u == s[pos..n + |d|]
    ensures Index(s, d, pos) == Some(n) <==> Index(u, d, 0) == Some(n - pos)
  {
    OccursInSlice(s, d, pos, n + |d|, n);
    IndexIff(s, d, pos, n);
    IndexIff(u, d, 0, n - pos);
    NoneInSlice(s, u, d, pos, n);
  }

  /** Whether a delimiter in s is the first one depends on nothing but the text in front of it. */
  lemma FoundExactly(s: seq<byte>, d: seq<byte>, pos: nat, n: nat)
    requires d != [] && pos <= n && Occurs(s, d, n)
    ensures Index(s, d, pos) == Some(n) <==> EndsAt(s[pos..n], d)
  {
    Glue(s, pos, n, n + |d|);
    FoundInSlice(s, s[pos..n] + d, d, pos, n);
  }

  lemma OccursBefore(text: seq<byte>, d: seq<byte>, i: nat)
    requires d != [] && d[0] !in d[1..] && i < |text|
    ensures Occurs(text + d, d, i) <==> Occurs(text, d, i)
  {
    var u, n := text + d, |text|;
    if i + |d| <= n {
      assert u[i..i + |d|] == text[i..i + |d|];
    } else {
      assert d[n - i] == d[1..][n - i - 1] != d[0] == u[n];
      assert u[i..i + |d|][n - i] == u[n];
    }
  }

  /** A delimiter whose first byte does not come back cannot overlap itself: it is found
      behind exactly the texts that lack it. */
  lemma NoOverlap(text: seq<byte>, d: seq<byte>)
    requires d != [] && d[0] !in d[1..]
    ensures EndsAt(text, d) <==> Lacks(text, d)
  {
    IndexIsFirst(text + d, d, 0);
    assert Occurs(text + d, d, |text|);
    forall i: nat | i < |text|
      ensures Occurs(text + d, d, i) <==> Occurs(text, d, i)
    {
      OccursBefore(text, d, i);
    }
    if Lacks(text, d) {
      assert forall i | 0 <= i < |text| :: !Occurs(text + d, d, i);
    }
    assert forall i: nat | i >= |text| :: !Occurs(text, d, i);
  }

  method find(s: seq<byte>, d: seq<byte>, pos: nat) returns (r: Option<nat>)
    requires d != [] && pos <= |s|
    ensures r == Index(s, d, pos)
  {
    var i := pos;
    while i + |d| <= |s|
      invariant pos <= i <= |s| && Index(s, d, pos) == Index(s, d, i)
      decreases |s| - i
    {
      if s[i..i + |d|] == d {
        return Some(i);
      }
      i := i + 1;
    }
    return None;
  }

  // ---------- the parser on positions ----------

  datatype Headers = Lines(lines: seq<seq<byte>>, end: nat) | Cut

  /** Header lines up to the empty one, and the position behind it. */
  function ReadHeaders(s: seq<byte>, pos: nat): (h: Headers)
    requires pos <= |s|
    ensures h.Lines? ==> pos < h.end <= |s|
    decreases |s| - pos
  {
    match Index(s, CRLF, pos)
    case None => Cut
    case Some(n) =>
      if n == pos then Lines([], n + 2)
      else match ReadHeaders(s, n + 2)
        case Cut => Cut
        case Lines(lines, end) => Lines([s[pos..n]] + lines, end)
  }

  datatype Parsed = Parsed(ok: bool, files: seq<File>)

  /** The part at pos, and the position behind the line of its boundary. */
  function PartAt(s: seq<byte>, d: seq<byte>, pos: nat): (r: Option<(File, nat)>)
    requires d != [] && pos <= |s|
    ensures r.Some? ==> pos < r.value.1 <= |s|
  {
    match ReadHeaders(s, pos)
    case Cut => None
    case Lines(lines, content) =>
      match Index(s, d, content)
      case None => None
      case Some(end) =>
        match Index(s, CRLF, end + |d|)
        case None => None
        case Some(n) => Some((File(lines, content, end - content), n + 2))
  }

  function Parts(s: seq<byte>, d: seq<byte>, pos: nat): Parsed
    requires d != [] && pos <= |s|
    decreases |s| - pos
  {
    if pos == |s| then Parsed(true, [])
    else match PartAt(s, d, pos)
      case None => Parsed(false, [])
      case Some((file, next)) =>
        var after := Parts(s, d, next);
        Parsed(after.ok, [file] + after.files)
  }

  /** Where the first part starts. */
  function Start(boundary: seq<byte>, body: seq<byte>): (r: Option<nat>)
    ensures r.Some? ==> r.value <= |body|
  {
    var opening := DASH + boundary;
    if !Occurs(body, opening, 0) then None
    else match Index(body, CRLF, |opening|)
      case None => None
      case Some(n) => Some(n + 2)
  }

  function Parse(boundary: seq<byte>, body: seq<byte>): Parsed {
    match Start(boundary, body)
    case None => Parsed(false, [])
    case Some(pos) => Parts(body, Delimiter(boundary), pos)
  }

  // ---------- the parser ----------

  function Behind(lines: seq<seq<byte>>, more: Headers): Headers {
    if more.Cut? then Cut else Lines(lines + more.lines, more.end)
  }

  lemma HeaderMoved(body: seq<byte>, pos: nat, n: nat, lines: seq<seq<byte>>)
    requires pos < n <= |body| - 2 && Index(body, CRLF, pos) == Some(n)
    ensures Behind(lines, ReadHeaders(body, pos)) == Behind(lines + [body[pos..n]], ReadHeaders(body, n + 2))
  {
    var more := ReadHeaders(body, n + 2);
    if more.Lines? {
      Assoc(lines, [body[pos..n]], more.lines);
    }
  }

  /** Between start and pos stand these lines, and this is what they say. */
  ghost predicate ReadSoFar(body: seq<byte>, start: nat, pos: nat, lines: seq<seq<byte>>, meta: Meta)
    requires start <= |body| && pos <= |body|
  {
    ReadHeaders(body, start) == Behind(lines, ReadHeaders(body, pos)) && meta == MetaOf(lines)
  }

  lemma ReadOneMore(body: seq<byte>, start: nat, pos: nat, n: nat, lines: seq<seq<byte>>, meta: Meta)
    requires start <= |body| && pos < n <= |body| - 2 && Index(body, CRLF, pos) == Some(n)
    requires ReadSoFar(body, start, pos, lines, meta)
    ensures ReadSoFar(body, start, n + 2, lines + [body[pos..n]], Noted(meta, body[pos..n]))
  {
    HeaderMoved(body, pos, n, lines);
    MetaSnoc(lines, body[pos..n]);
  }

  /** The answer once the loop is through, or is cut off. */
  lemma ReadAll(body: seq<byte>, start: nat, pos: nat, lines: seq<seq<byte>>, meta: Meta)
    requires start <= |body| && pos <= |body| && ReadSoFar(body, start, pos, lines, meta)
    ensures Index(body, CRLF, pos).None? ==> ReadHeaders(body, start) == Cut
    ensures Index(body, CRLF, pos) == Some(pos) ==> ReadHeaders(body, start) == Lines(lines, pos + 2)
  {
    assert lines + [] == lines;
  }

  /** The inner loop over header lines: where they end, and what they say. */
  method readHeaders(body: seq<byte>, start: nat) returns (end: Option<nat>, meta: Meta)
    requires start <= |body|
    ensures match ReadHeaders(body, start)
            case Cut => end.None?
            case Lines(lines, e) => end == Some(e) && meta == MetaOf(lines)
  {
    var pos := start;
    meta := BLANK;
    ghost var lines: seq<seq<byte>> := [];
    ReadNothing(body, start);
    var next := find(body, CRLF, pos);
    ReadAll(body, start, pos, lines, meta);
    if next.None? {
      return None, meta;
    }
    var next_pos := next.value;
    var header := body[pos..next_pos];
    while pos != next_pos
      invariant start <= pos <= next_pos <= |body| - 2
      invariant Index(body, CRLF, pos) == Some(next_pos) && header == body[pos..next_pos]
      invariant ReadSoFar(body, start, pos, lines, meta)
      decreases |body| - pos
    {
      ReadOneMore(body, start, pos, next_pos, lines, meta);
      meta := note(meta, header);
      lines := lines + [header];
      pos := next_pos + 2;
      next := find(body, CRLF, pos);
      ReadAll(body, start, pos, lines, meta);
      if next.None? {
        return None, meta;
      }
      next_pos := next.value;
      header := body[pos..next_pos];
    }
    ReadAll(body, start, pos, lines, meta);
    return Some(next_pos + 2), meta;
  }

  lemma ReadNothing(body: seq<byte>, start: nat)
    requires start <= |body|
    ensures ReadSoFar(body, start, start, [], BLANK)
  {
    var h := ReadHeaders(body, start);
    assert h.Lines? ==> [] + h.lines == h.lines;
  }

  method note(meta: Meta, header: seq<byte>) returns (noted: Meta)
    ensures noted == Noted(meta, header)
  {
    noted := meta;
    var m := TypeOf(header);
    if m.Some? {
      noted := noted.(contentType := m.value);
    } else {
      var m := DispositionOf(header);
      if m.Some? {
        noted := noted.(name := m.value.0, filename := m.value.1);
      }
    }
  }

  /** A `MultipartFile`. */
  datatype FormFile = FormFile(filename: seq<byte>, contentType: seq<byte>, offset: nat, length: nat)

  type Entry = (seq<byte>, FormFile)

  function EntryOf(file: File): Entry {
    var meta := MetaOf(file.headers);
    (meta.name, FormFile(meta.filename, meta.contentType, file.offset, file.length))
  }

  /** The multimap of files by name. */
  function Form(files: seq<File>): seq<Entry> {
    if files == [] then [] else Emplace(Form(files[..|files| - 1]), EntryOf(files[|files| - 1]))
  }

  lemma FormSnoc(files: seq<File>, file: File)
    ensures Form(files + [file]) == Emplace(Form(files), EntryOf(file))
  {
    assert (files + [file])[..|files|] == files;
  }

  /** One round of the outer loop, with the position the next one starts at. */
  method readPart(body: seq<byte>, delimiter: seq<byte>, pos: nat) returns (part: Option<(Entry, nat)>)
    requires delimiter != [] && pos <= |body|
    ensures match PartAt(body, delimiter, pos)
            case None => part.None?
            case Some((file, next)) => part == Some((EntryOf(file), next))
  {
    var end, meta := readHeaders(body, pos);
    if end.None? {
      return None;
    }
    var offset := end.value;
    var next_pos := find(body, delimiter, offset);
    if next_pos.None? {
      return None;
    }
    var file := FormFile(meta.filename, meta.contentType, offset, next_pos.value - offset);
    next_pos := find(body, CRLF, next_pos.value + |delimiter|);
    if next_pos.None? {
      return None;
    }
    return Some(((meta.name, file), next_pos.value + 2));
  }

  /** The line of the first boundary, which has to open the body. */
  method readOpening(dash_boundary: seq<byte>, body: seq<byte>) returns (start: Option<nat>)
    requires DASH <= dash_boundary
    ensures start == Start(dash_boundary[2..], body)
  {
    assert DASH + dash_boundary[2..] == dash_boundary;
    var found := find(body, dash_boundary, 0);
    if found != Some(0) {
      return None;
    }
    var next_pos := find(body, CRLF, |dash_boundary|);
    if next_pos.None? {
      return None;
    }
    return Some(next_pos.value + 2);
  }

  method parse_multipart_formdata(boundary: seq<byte>, body: seq<byte>) returns (ok: bool, files: seq<Entry>)
    ensures ok == Parse(boundary, body).ok && files == Form(Parse(boundary, body).files)
  {
    files := [];
    ghost var read: seq<File> := [];
    var dash_boundary := DASH + boundary;
    var delimiter := CRLF + dash_boundary;
    var start := readOpening(dash_boundary, body);
    if start.None? {
      return false, files;
    }
    var pos := start.value;
    while pos < |body|
      invariant pos <= |body| && files == Form(read)
      invariant Parse(boundary, body) ==
        var after := Parts(body, delimiter, pos);
        Parsed(after.ok, read + after.files)
      decreases |body| - pos
    {
      var part := readPart(body, delimiter, pos);
      if part.None? {
        assert read + [] == read;
        return false, files;
      }
      ghost var file := PartAt(body, delimiter, pos).value.0;
      var (entry, next) := part.value;
      FormSnoc(read, file);
      Assoc(read, [file], Parts(body, delimiter, next).files);
      files := emplace(files, entry);
      read := read + [file];
      pos := next;
    }
    assert read + [] == read;
    return true, files;
  }

  // ---------- what it returns, whatever the body ----------

  ghost predicate GoodLines(lines: seq<seq<byte>>) {
    lines == [] || (lines[0] != [] && Lacks(lines[0], CRLF) && GoodLines(lines[1..]))
  }

  /** In-bounds, ordered, disjoint slices: each lacks the delimiter and ends in front of the
      first one behind its start. */
  ghost predicate Sliced(files: seq<File>, body: seq<byte>, d: seq<byte>, from: nat)
    requires d != []
  {
    files == [] ||
    (from <= files[0].offset && IsSlice(files[0], body, d)
     && Sliced(files[1..], body, d, files[0].offset + files[0].length + |d|))
  }

  ghost predicate IsSlice(f: File, body: seq<byte>, d: seq<byte>)
    requires d != []
  {
    && f.offset + f.length + |d| <= |body|
    && Lacks(body[f.offset..f.offset + f.length], d)
    && Occurs(body, d, f.offset + f.length)
    && EndsAt(body[f.offset..f.offset + f.length], d)
    && GoodLines(f.headers)
  }

  lemma {:induction false} HeadersAreGood(s: seq<byte>, pos: nat)
    requires pos <= |s| && ReadHeaders(s, pos).Lines?
    ensures GoodLines(ReadHeaders(s, pos).lines)
    decreases |s| - pos
  {
    var n := Index(s, CRLF, pos).value;
    if n > pos {
      HeadersAreGood(s, n + 2);
      BeforeIndexLacks(s, CRLF, pos);
      assert ReadHeaders(s, pos).lines[1..] == ReadHeaders(s, n + 2).lines;
    }
  }

  lemma {:induction false} PartsAreSliced(body: seq<byte>, d: seq<byte>, pos: nat, from: nat)
    requires d != [] && from <= pos <= |body|
    ensures Sliced(Parts(body, d, pos).files, body, d, from)
    decreases |body| - pos
  {
    if pos < |body| && PartAt(body, d, pos).Some? {
      var (f, next) := PartAt(body, d, pos).value;
      PartIsSlice(body, d, pos);
      PartsAreSliced(body, d, next, f.offset + f.length + |d|);
    }
  }

  lemma PartIsSlice(body: seq<byte>, d: seq<byte>, pos: nat)
    requires d != [] && pos <= |body| && PartAt(body, d, pos).Some?
    ensures var (f, next) := PartAt(body, d, pos).value;
            pos <= f.offset && IsSlice(f, body, d) && f.offset + f.length + |d| <= next
  {
    var f := PartAt(body, d, pos).value.0;
    HeadersAreGood(body, pos);
    BeforeIndexLacks(body, d, f.offset);
    IndexIsFirst(body, d, f.offset);
    FoundExactly(body, d, f.offset, f.offset + f.length);
  }

  lemma SlicesAreSound(boundary: seq<byte>, body: seq<byte>)
    ensures Sliced(Parse(boundary, body).files, body, Delimiter(boundary), 0)
  {
    var start := Start(boundary, body);
    if start.Some? {
      PartsAreSliced(body, Delimiter(boundary), start.value, 0);
    }
  }

  // ---------- rendering ----------

  datatype Part = Part(headers: seq<seq<byte>>, content: seq<byte>)

  function RenderHeaders(lines: seq<seq<byte>>): seq<byte> {
    if lines == [] then CRLF else lines[0] + (CRLF + RenderHeaders(lines[1..]))
  }

  /** What stands between a boundary and the end of its line. */
  function Mark(parts: seq<Part>): seq<byte> {
    if parts == [] then DASH else []
  }

  /** The rest of a boundary line, and everything below it. */
  function Below(parts: seq<Part>, d: seq<byte>): seq<byte>
    decreases |parts|, 1
  {
    Mark(parts) + (CRLF + RenderParts(parts, d))
  }

  function RenderParts(parts: seq<Part>, d: seq<byte>): seq<byte>
    decreases |parts|, 0
  {
    if parts == [] then [] else
      RenderHeaders(parts[0].headers) + (parts[0].content + (d + Below(parts[1..], d)))
  }

  function Render(parts: seq<Part>, boundary: seq<byte>): seq<byte> {
    (DASH + boundary) + Below(parts, Delimiter(boundary))
  }

  /** The files are the parts: same header lines, and the slice holds the content. */
  ghost predicate Holds(files: seq<File>, parts: seq<Part>, body: seq<byte>) {
    && |files| == |parts|
    && (files == [] || (IsPart(files[0], parts[0], body) && Holds(files[1..], parts[1..], body)))
  }

  ghost predicate IsPart(f: File, p: Part, body: seq<byte>) {
    && f.headers == p.headers
    && f.offset + f.length <= |body|
    && body[f.offset..f.offset + f.length] == p.content
  }

  ghost predicate Clean(parts: seq<Part>, d: seq<byte>)
    requires d != []
  {
    forall p | p in parts :: GoodLines(p.headers) && EndsAt(p.content, d)
  }

  /** Stepping over the text at a position. */
  lemma Over(s: seq<byte>, pos: nat, a: seq<byte>, rest: seq<byte>)
    requires pos <= |s| && s[pos..] == a + rest
    ensures Occurs(s, a, pos) && s[pos..pos + |a|] == a && s[pos + |a|..] == rest
  {
    assert s[pos..][..|a|] == a;
    assert s[pos..][|a|..] == rest;
  }

  /** Looking for the delimiter behind a text that it ends. */
  lemma Found(s: seq<byte>, pos: nat, text: seq<byte>, d: seq<byte>, rest: seq<byte>)
    requires d != [] && EndsAt(text, d)
    requires pos <= |s| && s[pos..] == text + (d + rest)
    ensures var n := pos + |text|;
            n + |d| <= |s| && Index(s, d, pos) == Some(n) && s[pos..n] == text && s[n + |d|..] == rest
  {
    var n := pos + |text|;
    Over(s, pos, text, d + rest);
    Over(s, n, d, rest);
    FoundExactly(s, d, pos, n);
  }

  lemma LineRead(s: seq<byte>, pos: nat, line: seq<byte>, rest: seq<byte>)
    requires pos <= |s| && s[pos..] == line + (CRLF + rest) && Lacks(line, CRLF)
    ensures var n := pos + |line|;
            n + 2 <= |s| && Index(s, CRLF, pos) == Some(n) && s[pos..n] == line && s[n + 2..] == rest
  {
    NoOverlap(line, CRLF);
    Found(s, pos, line, CRLF, rest);
  }

  lemma HeaderStep(s: seq<byte>, pos: nat, n: nat)
    requires pos < n <= |s| - 2 && Index(s, CRLF, pos) == Some(n)
    ensures ReadHeaders(s, pos) == Behind([s[pos..n]], ReadHeaders(s, n + 2))
  {
  }

  lemma NoHeaders(s: seq<byte>, pos: nat, rest: seq<byte>)
    requires pos <= |s| && s[pos..] == CRLF + rest
    ensures ReadHeaders(s, pos) == Lines([], |s| - |rest|)
  {
    Over(s, pos, CRLF, rest);
    assert Index(s, CRLF, pos) == Some(pos);
  }

  lemma FirstHeader(lines: seq<seq<byte>>, rest: seq<byte>)
    requires lines != []
    ensures RenderHeaders(lines) + rest == lines[0] + (CRLF + (RenderHeaders(lines[1..]) + rest))
  {
    var more := RenderHeaders(lines[1..]);
    Assoc(lines[0], CRLF + more, rest);
    Assoc(CRLF, more, rest);
  }

  /** Rendered header lines stand at pos, and then the rest. */
  ghost predicate StandAt(s: seq<byte>, pos: nat, lines: seq<seq<byte>>, rest: seq<byte>) {
    pos <= |s| && s[pos..] == RenderHeaders(lines) + rest
  }

  /** The first of some header lines, and what follows it. */
  lemma HeaderAt(s: seq<byte>, pos: nat, lines: seq<seq<byte>>, rest: seq<byte>) returns (next: nat)
    requires StandAt(s, pos, lines, rest) && lines != [] && GoodLines(lines)
    ensures StandAt(s, next, lines[1..], rest)
    ensures ReadHeaders(s, pos) == Behind([lines[0]], ReadHeaders(s, next))
  {
    FirstHeader(lines, rest);
    LineRead(s, pos, lines[0], RenderHeaders(lines[1..]) + rest);
    var n := pos + |lines[0]|;
    next := n + 2;
    HeaderStep(s, pos, n);
  }

  lemma {:induction false} HeadersRead(s: seq<byte>, pos: nat, lines: seq<seq<byte>>, rest: seq<byte>, end: nat)
    requires StandAt(s, pos, lines, rest) && GoodLines(lines) && end + |rest| == |s|
    ensures ReadHeaders(s, pos) == Lines(lines, end)
    decreases |lines|
  {
    if lines == [] {
      NoHeaders(s, pos, rest);
    } else {
      var next := HeaderAt(s, pos, lines, rest);
      HeadersRead(s, next, lines[1..], rest, end);
      assert [lines[0]] + lines[1..] == lines;
    }
  }

  lemma MarkIsOneLine(parts: seq<Part>)
    ensures Lacks(Mark(parts), CRLF)
  {
    forall i: nat
      ensures !Occurs(Mark(parts), CRLF, i)
    {
      if i + 2 <= |Mark(parts)| {
        assert Mark(parts)[i..i + 2][0] == '-' != CRLF[0];
      }
    }
  }

  /** The rest of a boundary line. */
  lemma BelowRead(s: seq<byte>, pos: nat, more: seq<Part>, d: seq<byte>) returns (n: nat)
    requires pos <= |s| && s[pos..] == Below(more, d)
    ensures pos <= n <= |s| - 2 && Index(s, CRLF, pos) == Some(n) && s[n + 2..] == RenderParts(more, d)
  {
    MarkIsOneLine(more);
    LineRead(s, pos, Mark(more), RenderParts(more, d));
    n := pos + |Mark(more)|;
  }

  /** The header lines and the content of a rendered part. */
  lemma TextRead(s: seq<byte>, pos: nat, lines: seq<seq<byte>>, content: seq<byte>, d: seq<byte>, below: seq<byte>)
    returns (offset: nat)
    requires d != [] && GoodLines(lines) && EndsAt(content, d)
    requires pos <= |s| && s[pos..] == RenderHeaders(lines) + (content + (d + below))
    ensures pos <= offset && offset + |content| + |d| <= |s|
    ensures ReadHeaders(s, pos) == Lines(lines, offset) && Index(s, d, offset) == Some(offset + |content|)
    ensures s[offset..offset + |content|] == content && s[offset + |content| + |d|..] == below
  {
    var text := content + (d + below);
    HeadersRead(s, pos, lines, text, |s| - |text|);
    Over(s, pos, RenderHeaders(lines), text);
    offset := |s| - |text|;
    Found(s, offset, content, d, below);
  }

  lemma PartIs(s: seq<byte>, d: seq<byte>, pos: nat, lines: seq<seq<byte>>, offset: nat, end: nat, n: nat)
    requires d != [] && pos <= offset <= end && end + |d| <= n <= |s| - 2
    requires ReadHeaders(s, pos) == Lines(lines, offset)
    requires Index(s, d, offset) == Some(end) && Index(s, CRLF, end + |d|) == Some(n)
    ensures PartAt(s, d, pos) == Some((File(lines, offset, end - offset), n + 2))
  {
  }

  /** Behind the content stand the delimiter and the rest of its line. */
  lemma PartEnds(s: seq<byte>, d: seq<byte>, pos: nat, lines: seq<seq<byte>>, offset: nat, end: nat, more: seq<Part>)
    returns (next: nat)
    requires d != [] && pos <= offset <= end && end + |d| <= |s|
    requires ReadHeaders(s, pos) == Lines(lines, offset) && Index(s, d, offset) == Some(end)
    requires s[end + |d|..] == Below(more, d)
    ensures PartAt(s, d, pos) == Some((File(lines, offset, end - offset), next))
    ensures end <= next <= |s| && s[next..] == RenderParts(more, d)
  {
    var n := BelowRead(s, end + |d|, more, d);
    PartIs(s, d, pos, lines, offset, end, n);
    next := n + 2;
  }

  /** The parser in front of one rendered part. */
  lemma PartRead(s: seq<byte>, pos: nat, lines: seq<seq<byte>>, content: seq<byte>, more: seq<Part>, d: seq<byte>)
    returns (offset: nat, next: nat)
    requires d != [] && GoodLines(lines) && EndsAt(content, d)
    requires pos <= |s| && s[pos..] == RenderHeaders(lines) + (content + (d + Below(more, d)))
    ensures PartAt(s, d, pos) == Some((File(lines, offset, |content|), next))
    ensures offset + |content| <= next <= |s|
    ensures s[offset..offset + |content|] == content && s[next..] == RenderParts(more, d)
  {
    offset := TextRead(s, pos, lines, content, d, Below(more, d));
    next := PartEnds(s, d, pos, lines, offset, offset + |content|, more);
  }

  lemma PartsStep(s: seq<byte>, pos: nat, parts: seq<Part>, d: seq<byte>, offset: nat, next: nat)
    requires d != [] && parts != [] && pos < |s| && next <= |s|
    requires PartAt(s, d, pos) == Some((File(parts[0].headers, offset, |parts[0].content|), next))
    requires offset + |parts[0].content| <= |s| && s[offset..offset + |parts[0].content|] == parts[0].content
    requires Parts(s, d, next).ok && Holds(Parts(s, d, next).files, parts[1..], s)
    ensures Parts(s, d, pos).ok && Holds(Parts(s, d, pos).files, parts, s)
  {
    var file, after := File(parts[0].headers, offset, |parts[0].content|), Parts(s, d, next);
    assert Parts(s, d, pos) == Parsed(true, [file] + after.files);
    HoldsMore(file, after.files, parts, s);
  }

  lemma HoldsMore(file: File, files: seq<File>, parts: seq<Part>, body: seq<byte>)
    requires parts != [] && IsPart(file, parts[0], body) && Holds(files, parts[1..], body)
    ensures Holds([file] + files, parts, body)
  {
    assert ([file] + files)[1..] == files;
  }

  lemma {:induction false} PartsRead(s: seq<byte>, pos: nat, parts: seq<Part>, d: seq<byte>)
    requires d != [] && Clean(parts, d)
    requires pos <= |s| && s[pos..] == RenderParts(parts, d)
    ensures Parts(s, d, pos).ok && Holds(Parts(s, d, pos).files, parts, s)
    decreases |parts|
  {
    if parts != [] {
      var offset, next := PartRead(s, pos, parts[0].headers, parts[0].content, parts[1..], d);
      PartsRead(s, next, parts[1..], d);
      PartsStep(s, pos, parts, d, offset, next);
    }
  }

  lemma {:induction false} SlicedIsClean(files: seq<File>, parts: seq<Part>, body: seq<byte>, d: seq<byte>, from: nat)
    requires d != [] && Sliced(files, body, d, from) && Holds(files, parts, body)
    ensures Clean(parts, d)
  {
    if parts != [] {
      SlicedIsClean(files[1..], parts[1..], body, d, files[0].offset + files[0].length + |d|);
      assert parts == [parts[0]] + parts[1..];
    }
  }

  /** Behind the boundary that opens a rendering stands the first part. */
  lemma RenderingStarts(parts: seq<Part>, boundary: seq<byte>)
    ensures var body, d := Render(parts, boundary), Delimiter(boundary);
            Start(boundary, body).Some? && body[Start(boundary, body).value..] == RenderParts(parts, d)
  {
    var body, d := Render(parts, boundary), Delimiter(boundary);
    assert body[0..] == body;
    Over(body, 0, DASH + boundary, Below(parts, d));
    var n := BelowRead(body, |DASH + boundary|, parts, d);
  }

  /** For every boundary, parsing undoes rendering exactly when each content is ended by its
      delimiter and not earlier, and the header lines are non-empty single lines. */
  lemma MultipartRoundTrip(parts: seq<Part>, boundary: seq<byte>)
    ensures var body := Render(parts, boundary);
            var parsed := Parse(boundary, body);
            (parsed.ok && Holds(parsed.files, parts, body)) <==> Clean(parts, Delimiter(boundary))
  {
    var d, body := Delimiter(boundary), Render(parts, boundary);
    var parsed := Parse(boundary, body);
    RenderingStarts(parts, boundary);
    if Clean(parts, d) {
      PartsRead(body, Start(boundary, body).value, parts, d);
    }
    if parsed.ok && Holds(parsed.files, parts, body) {
      SlicesAreSound(boundary, body);
      SlicedIsClean(parsed.files, parts, body, d, 0);
    }
  }

  /** For a boundary without CR these are the contents that lack the delimiter. */
  lemma PlainBoundary(content: seq<byte>, boundary: seq<byte>)
    requires CR !in boundary
    ensures EndsAt(content, Delimiter(boundary)) <==> Lacks(content, Delimiter(boundary))
  {
    NoOverlap(content, Delimiter(boundary));
  }

  /** With a CR the boundary may overlap itself: this content lacks the delimiter, and yet it
      does not come back. */
  lemma OverlappingBoundary()
    ensures var boundary: seq<byte> := ['x', CR, LF, '-', '-', 'x'];
            var content: seq<byte> := [CR, LF, '-', '-', 'x'];
            var d, parts := Delimiter(boundary), [Part([], content)];
            && Lacks(content, d) && !EndsAt(content, d)
            && !Holds(Parse(boundary, Render(parts, boundary)).files, parts, Render(parts, boundary))
  {
    var boundary: seq<byte> := ['x', CR, LF, '-', '-', 'x'];
    var content: seq<byte> := [CR, LF, '-', '-', 'x'];
    var d, parts := Delimiter(boundary), [Part([], content)];
    var body := Render(parts, boundary);
    assert content + d == d + content;
    assert Occurs(content + d, d, 0);
    assert parts[0] in parts && !Clean(parts, d);
    SlicesAreSound(boundary, body);
    NotHeld(Parse(boundary, body).files, parts, body, d);
  }

  lemma NotHeld(files: seq<File>, parts: seq<Part>, body: seq<byte>, d: seq<byte>)
    requires d != [] && Sliced(files, body, d, 0) && !Clean(parts, d)
    ensures !Holds(files, parts, body)
  {
    if Holds(files, parts, body) {
      SlicedIsClean(files, parts, body, d, 0);
      assert false;
    }
  }
}

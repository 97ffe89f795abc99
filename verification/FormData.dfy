/** Form data: fields printed as a multipart body come back under their names
    (`parse_multipart_formdata`, src/httplib.h). */
module FormData {
  import opened Prelude
  import opened Multimap
  import opened FormHeaders
  import opened Multipart

  // ---------- the multimap of files ----------

  /** The files of one name, in order of appearance. */
  function Named(files: seq<File>, name: seq<byte>): seq<FormFile> {
    if files == [] then []
    else
      var last := EntryOf(files[|files| - 1]);
      Named(files[..|files| - 1], name) + if last.0 == name then [last.1] else []
  }

  /** The multimap is ordered by name, and lists the files of each name as they appeared. */
  lemma {:induction false} FormIsStable(files: seq<File>, name: seq<byte>)
    ensures IsMultimap(Form(files)) && Under(Form(files), name) == Named(files, name)
  {
    if files != [] {
      var before := files[..|files| - 1];
      FormIsStable(before, name);
      EmplaceAppends(Form(before), EntryOf(files[|files| - 1]), name);
      EmplaceKeepsOrder(Form(before), EntryOf(files[|files| - 1]));
    }
  }

  // ---------- fields ----------

  function PartOf(field: Field): Part {
    Part(HeaderLines(field), field.content)
  }

  function PartsOf(fields: seq<Field>): (parts: seq<Part>)
    ensures |parts| == |fields| && forall i | 0 <= i < |fields| :: parts[i] == PartOf(fields[i])
  {
    seq(|fields|, i requires 0 <= i < |fields| => PartOf(fields[i]))
  }

  /** The file is this field. */
  ghost predicate Returns(file: File, field: Field, body: seq<byte>) {
    && MetaOf(file.headers) == Known(field)
    && file.offset + file.length <= |body| && body[file.offset..file.offset + file.length] == field.content
  }

  ghost predicate AllReturn(files: seq<File>, fields: seq<Field>, body: seq<byte>) {
    |files| == |fields| && forall i | 0 <= i < |fields| :: Returns(files[i], fields[i], body)
  }

  ghost predicate Survives(field: Field, d: seq<byte>)
    requires d != []
  {
    Readable(field) && EndsAt(field.content, d)
  }

  lemma FieldOnWire()
    ensures RenderHeaders(HeaderLines(Field("a", None, None, "1")))
         == "Content-Disposition: form-data; name=\"a\"" + "\r\n\r\n"
  {
    var field := Field("a", None, None, "1");
    assert Naming(field.name, field.filename) == "a\"";
    assert HeaderLines(field)[0] == "Content-Disposition: form-data; name=\"a\"";
    assert |HeaderLines(field)[1..]| == 0;
    assert CRLF + CRLF == "\r\n\r\n";
  }

  lemma PartOnWire(part: Part)
    ensures Delimiter("B") == "\r\n--B"
    ensures RenderParts([part], "\r\n--B") == RenderHeaders(part.headers) + (part.content + "\r\n--B--\r\n")
  {
    var parts := [part];
    assert |parts[1..]| == 0;
    assert Below(parts[1..], "\r\n--B") == "--\r\n";
    assert "\r\n--B" + "--\r\n" == "\r\n--B--\r\n";
  }

  /** What a form of one field looks like, line by line. */
  lemma FormOnWire()
    ensures Render(PartsOf([Field("a", None, None, "1")]), "B")
         == "--B\r\n" + ("Content-Disposition: form-data; name=\"a\"" + ("\r\n\r\n" + ("1" + "\r\n--B--\r\n")))
  {
    var field := Field("a", None, None, "1");
    assert PartsOf([field]) == [PartOf(field)];
    FieldOnWire();
    PartOnWire(PartOf(field));
    var line: seq<byte> := "Content-Disposition: form-data; name=\"a\"";
    Assoc(line, "\r\n\r\n", "1" + "\r\n--B--\r\n");
    OpeningOnWire([PartOf(field)], line + ("\r\n\r\n" + ("1" + "\r\n--B--\r\n")));
  }

  lemma OpeningOnWire(parts: seq<Part>, body: seq<byte>)
    requires parts != [] && RenderParts(parts, Delimiter("B")) == body
    ensures Render(parts, "B") == "--B\r\n" + body
  {
    assert DASH + "B" == "--B" && Below(parts, Delimiter("B")) == CRLF + body;
    Assoc("--B", CRLF, body);
    assert "--B" + CRLF == "--B\r\n";
  }

  // ---------- only single lines come back ----------

  lemma {:induction false} ReadIsPlain(x: seq<byte>, k: nat)
    requires k <= |x| && NameFrom(x, k).Some?
    ensures Plain(NameFrom(x, k).value.0) && Plain(NameFrom(x, k).value.1)
    decreases |x| - k
  {
    if NameUpTo(x, k).None? {
      ReadIsPlain(x, k + 1);
    }
  }

  ghost predicate PlainMeta(meta: Meta) {
    Plain(meta.name) && Plain(meta.filename) && Plain(meta.contentType)
  }

  lemma {:induction false} MetaIsPlain(lines: seq<seq<byte>>)
    ensures PlainMeta(MetaOf(lines))
  {
    if lines != [] {
      MetaIsPlain(lines[..|lines| - 1]);
      var header := lines[|lines| - 1];
      if DispositionOf(header).Some? {
        ReadIsPlain(header[|DISPOSITION|..], 0);
      }
    }
  }

  lemma PlainIsOneLine(s: seq<byte>)
    requires CR !in s
    ensures Lacks(s, CRLF)
  {
    forall i: nat
      ensures !Occurs(s, CRLF, i)
    {
      if i + 2 <= |s| {
        assert s[i..i + 2][0] == s[i] != CRLF[0];
      }
    }
  }

  /** Printed from a field on one line, the header lines are good ones. */
  lemma LinesAreGood(field: Field)
    requires OnOneLine(field)
    ensures GoodLines(HeaderLines(field))
  {
    var line := Disposition(field.name, field.filename);
    assert CR !in DISPOSITION && CR !in FILENAME && CR !in CONTENT_TYPE;
    PlainIsOneLine(line);
    var lines := HeaderLines(field);
    if field.contentType.Some? {
      PlainIsOneLine(CONTENT_TYPE + field.contentType.value);
      var tail := lines[1..];
      assert tail[0] == CONTENT_TYPE + field.contentType.value && |tail[1..]| == 0;
    } else {
      assert |lines[1..]| == 0;
    }
  }

  // ---------- the round trip ----------

  lemma {:induction false} HeldAt(files: seq<File>, parts: seq<Part>, body: seq<byte>, i: nat)
    requires Holds(files, parts, body) && i < |parts|
    ensures IsPart(files[i], parts[i], body)
  {
    if i > 0 {
      HeldAt(files[1..], parts[1..], body, i - 1);
    }
  }

  lemma {:induction false} SlicedAt(files: seq<File>, body: seq<byte>, d: seq<byte>, from: nat, i: nat)
    requires d != [] && Sliced(files, body, d, from) && i < |files|
    ensures IsSlice(files[i], body, d)
  {
    if i > 0 {
      SlicedAt(files[1..], body, d, files[0].offset + files[0].length + |d|, i - 1);
    }
  }

  lemma FieldsAreClean(fields: seq<Field>, d: seq<byte>)
    requires d != []
    requires forall i | 0 <= i < |fields| :: OnOneLine(fields[i]) && EndsAt(fields[i].content, d)
    ensures Clean(PartsOf(fields), d)
  {
    forall i | 0 <= i < |fields|
      ensures GoodLines(HeaderLines(fields[i])) && EndsAt(fields[i].content, d)
    {
      LinesAreGood(fields[i]);
    }
    CleanAt(PartsOf(fields), d);
  }

  lemma CleanAt(parts: seq<Part>, d: seq<byte>)
    requires d != [] && forall i | 0 <= i < |parts| :: GoodLines(parts[i].headers) && EndsAt(parts[i].content, d)
    ensures Clean(parts, d)
  {
  }

  /** A field that came back was on one line, and its content ends at its delimiter. */
  lemma ReturnedIsClean(files: seq<File>, fields: seq<Field>, body: seq<byte>, d: seq<byte>)
    requires d != [] && Sliced(files, body, d, 0) && AllReturn(files, fields, body)
    ensures Clean(PartsOf(fields), d)
    ensures forall i | 0 <= i < |fields| :: EndsAt(fields[i].content, d)
  {
    forall i | 0 <= i < |fields|
      ensures OnOneLine(fields[i]) && EndsAt(fields[i].content, d)
    {
      assert Returns(files[i], fields[i], body);
      MetaIsPlain(files[i].headers);
      SlicedAt(files, body, d, 0, i);
    }
    FieldsAreClean(fields, d);
  }

  /** Files that hold the printed parts return exactly the readable fields. */
  lemma HeldReturns(files: seq<File>, fields: seq<Field>, body: seq<byte>)
    requires Holds(files, PartsOf(fields), body)
    ensures |files| == |fields|
    ensures forall i | 0 <= i < |fields| :: Returns(files[i], fields[i], body) <==> Readable(fields[i])
  {
    forall i | 0 <= i < |fields|
      ensures Returns(files[i], fields[i], body) <==> Readable(fields[i])
    {
      HeldAt(files, PartsOf(fields), body, i);
      HeadersExactly(fields[i]);
    }
  }

  /** Every field printed into a multipart body comes back, with its name, filename, type and
      content, exactly if every field is readable and every content is ended by its delimiter. */
  lemma FormRoundTripExactly(fields: seq<Field>, boundary: seq<byte>)
    ensures var body, d := Render(PartsOf(fields), boundary), Delimiter(boundary);
            var parsed := Parse(boundary, body);
            parsed.ok && AllReturn(parsed.files, fields, body)
            <==> forall i | 0 <= i < |fields| :: Survives(fields[i], d)
  {
    var body, d := Render(PartsOf(fields), boundary), Delimiter(boundary);
    var parsed := Parse(boundary, body);
    SlicesAreSound(boundary, body);
    MultipartRoundTrip(PartsOf(fields), boundary);
    if forall i | 0 <= i < |fields| :: Survives(fields[i], d) {
      FieldsAreClean(fields, d);
      HeldReturns(parsed.files, fields, body);
    }
    if parsed.ok && AllReturn(parsed.files, fields, body) {
      ReturnedIsClean(parsed.files, fields, body, d);
      HeldReturns(parsed.files, fields, body);
      assert forall i | 0 <= i < |fields| :: Returns(parsed.files[i], fields[i], body);
    }
  }

  /** What the client sent under a name is what the server finds there, in order. */
  method SendForm(fields: seq<Field>, boundary: seq<byte>, name: seq<byte>)
    returns (body: seq<byte>, ok: bool, files: seq<Entry>)
    requires forall i | 0 <= i < |fields| :: Survives(fields[i], Delimiter(boundary))
    ensures ok && IsMultimap(files)
    ensures body == Render(PartsOf(fields), boundary)
    ensures Matches(Under(files, name), Sent(fields, name), body)
  {
    body := Render(PartsOf(fields), boundary);
    ok, files := parse_multipart_formdata(boundary, body);
    FormRoundTripExactly(fields, boundary);
    FormIsStable(Parse(boundary, body).files, name);
    NamedMatches(Parse(boundary, body).files, fields, body, name);
  }

  /** The fields of one name, in order. */
  function Sent(fields: seq<Field>, name: seq<byte>): seq<Field> {
    if fields == [] then []
    else
      var last := fields[|fields| - 1];
      Sent(fields[..|fields| - 1], name) + if last.name == name then [last] else []
  }

  /** The file has the content and what else is known of the field. */
  ghost predicate IsField(file: FormFile, field: Field, body: seq<byte>) {
    && file.filename == Given(field.filename) && file.contentType == Given(field.contentType)
    && file.offset + file.length <= |body| && body[file.offset..file.offset + file.length] == field.content
  }

  ghost predicate Matches(files: seq<FormFile>, fields: seq<Field>, body: seq<byte>) {
    |files| == |fields| && forall i | 0 <= i < |files| :: IsField(files[i], fields[i], body)
  }

  lemma MatchesMore(files: seq<FormFile>, fields: seq<Field>, file: FormFile, field: Field, body: seq<byte>)
    requires Matches(files, fields, body) && IsField(file, field, body)
    ensures Matches(files + [file], fields + [field], body)
  {
  }

  lemma {:induction false} NamedMatches(files: seq<File>, fields: seq<Field>, body: seq<byte>, name: seq<byte>)
    requires AllReturn(files, fields, body)
    ensures Matches(Named(files, name), Sent(fields, name), body)
  {
    if files != [] {
      var n := |files| - 1;
      assert AllReturn(files[..n], fields[..n], body) by {
        assert forall i | 0 <= i < n :: Returns(files[i], fields[i], body);
      }
      NamedMatches(files[..n], fields[..n], body, name);
      assert Returns(files[n], fields[n], body);
      MatchesLast(files, fields, body, name);
    }
  }

  lemma MatchesLast(files: seq<File>, fields: seq<Field>, body: seq<byte>, name: seq<byte>)
    requires |files| == |fields| > 0 && Returns(files[|files| - 1], fields[|files| - 1], body)
    requires Matches(Named(files[..|files| - 1], name), Sent(fields[..|files| - 1], name), body)
    ensures Matches(Named(files, name), Sent(fields, name), body)
  {
    var n := |files| - 1;
    if fields[n].name == name {
      MatchesMore(Named(files[..n], name), Sent(fields[..n], name), EntryOf(files[n]).1, fields[n], body);
    } else {
      assert Named(files[..n], name) + [] == Named(files[..n], name);
      assert Sent(fields[..n], name) + [] == Sent(fields[..n], name);
    }
  }
}

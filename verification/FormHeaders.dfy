/** The two patterns of `parse_multipart_formdata` (src/httplib.h): what the header lines of a
    part say about it. Both have to match a whole line, in any case; their dots match anything
    but CR and LF. */
module FormHeaders {
  import opened Prelude

  const CONTENT_TYPE: seq<byte> := "Content-Type: "
  const DISPOSITION: seq<byte> := "Content-Disposition: form-data; name=\""
  const FILENAME: seq<byte> := "; filename=\""
  const QUOTE: byte := '\"'

  function Lower(c: byte): byte {
    if 'A' <= c <= 'Z' then (c as int + 32) as char else c
  }

  predicate Begins(s: seq<byte>, text: seq<byte>) {
    |text| <= |s| && forall i | 0 <= i < |text| :: Lower(s[i]) == Lower(text[i])
  }

  /** What the dots match. */
  predicate Plain(s: seq<byte>) {
    CR !in s && LF !in s
  }

  function TypeOf(header: seq<byte>): Option<seq<byte>> {
    if Begins(header, CONTENT_TYPE) && Plain(header[|CONTENT_TYPE|..]) then Some(header[|CONTENT_TYPE|..]) else None
  }

  /** The filename in the optional group, if that is all of s. */
  function FilenameIn(s: seq<byte>): Option<seq<byte>> {
    var n := |FILENAME|;
    if Begins(s, FILENAME) && |s| > n && s[|s| - 1] == QUOTE && Plain(s[n..|s| - 1]) then Some(s[n..|s| - 1]) else None
  }

  /** The match whose name is the first k bytes of x: the filename it captures. */
  function NameUpTo(x: seq<byte>, k: nat): Option<seq<byte>>
    requires k < |x|
  {
    if x[k] != QUOTE || !Plain(x[..k]) then None
    else if FilenameIn(x[k + 1..]).Some? then FilenameIn(x[k + 1..])
    else if k + 1 == |x| then Some([])
    else None
  }

  /** The lazy first group takes the shortest name from k bytes on that leads to a match. */
  function NameFrom(x: seq<byte>, k: nat): Option<(seq<byte>, seq<byte>)>
    requires k <= |x|
    decreases |x| - k
  {
    if k == |x| then None
    else if NameUpTo(x, k).Some? then Some((x[..k], NameUpTo(x, k).value))
    else NameFrom(x, k + 1)
  }

  /** Name and filename. */
  function DispositionOf(header: seq<byte>): Option<(seq<byte>, seq<byte>)> {
    if Begins(header, DISPOSITION) then NameFrom(header[|DISPOSITION|..], 0) else None
  }

  /** What is known of a part. */
  datatype Meta = Meta(name: seq<byte>, filename: seq<byte>, contentType: seq<byte>)

  const BLANK := Meta([], [], [])

  function Noted(meta: Meta, header: seq<byte>): Meta {
    if TypeOf(header).Some? then meta.(contentType := TypeOf(header).value)
    else if DispositionOf(header).Some? then
      meta.(name := DispositionOf(header).value.0, filename := DispositionOf(header).value.1)
    else meta
  }

  /** After all header lines; later ones overwrite earlier ones. */
  function MetaOf(lines: seq<seq<byte>>): Meta {
    if lines == [] then BLANK else Noted(MetaOf(lines[..|lines| - 1]), lines[|lines| - 1])
  }

  lemma MetaSnoc(lines: seq<seq<byte>>, header: seq<byte>)
    ensures MetaOf(lines + [header]) == Noted(MetaOf(lines), header)
  {
    assert (lines + [header])[..|lines|] == lines;
  }

  // ---------- case does not matter ----------

  /** The same byte, or the same letter in the other case. */
  ghost predicate SameLetter(a: byte, b: byte) {
    a == b || ('A' <= a <= 'Z' && b as int == a as int + 32) || ('A' <= b <= 'Z' && a as int == b as int + 32)
  }

  /** A pattern's text matches in any case, and nothing else does. */
  lemma BeginsExactly(s: seq<byte>, text: seq<byte>)
    ensures Begins(s, text) <==> |text| <= |s| && forall i | 0 <= i < |text| :: SameLetter(s[i], text[i])
  {
    if |text| <= |s| {
      forall i | 0 <= i < |text|
        ensures Lower(s[i]) == Lower(text[i]) <==> SameLetter(s[i], text[i])
      {
      }
    }
  }

  /** What the two header lines look like. */
  lemma HeadersOnWire()
    ensures Disposition("a", Some("b")) == "Content-Disposition: form-data; name=\"a\"; filename=\"b\""
    ensures CONTENT_TYPE + "text/plain" == "Content-Type: text/plain"
  {
  }

  // ---------- what a client prints ----------

  /** What stands behind the opening quote of the name. */
  function Naming(name: seq<byte>, filename: Option<seq<byte>>): seq<byte> {
    name + ([QUOTE] + if filename.Some? then FILENAME + (filename.value + [QUOTE]) else [])
  }

  function Disposition(name: seq<byte>, filename: Option<seq<byte>>): seq<byte> {
    DISPOSITION + Naming(name, filename)
  }

  /** No shorter name matches. */
  ghost predicate NoShorterName(x: seq<byte>, n: nat)
    requires n <= |x|
  {
    forall k: nat | k < n :: NameUpTo(x, k).None?
  }

  lemma {:induction false} NameFromIs(x: seq<byte>, k: nat, n: nat)
    requires k <= n < |x| && forall i: nat | k <= i < n :: NameUpTo(x, i).None?
    requires NameUpTo(x, n).Some?
    ensures NameFrom(x, k) == Some((x[..n], NameUpTo(x, n).value))
    decreases n - k
  {
    if k < n {
      NameFromIs(x, k + 1, n);
    }
  }

  lemma NameFromNext(x: seq<byte>, k: nat)
    requires k <= |x| && NameFrom(x, k).Some?
    ensures k < |x|
    ensures NameFrom(x, k) == if NameUpTo(x, k).Some? then Some((x[..k], NameUpTo(x, k).value)) else NameFrom(x, k + 1)
  {
  }

  lemma {:induction false} NameFromIsFirst(x: seq<byte>, k: nat)
    requires k <= |x| && NameFrom(x, k).Some?
    ensures var (name, filename) := NameFrom(x, k).value;
            && k <= |name| < |x| && name == x[..|name|] && NameUpTo(x, |name|) == Some(filename)
            && forall i: nat | k <= i < |name| :: NameUpTo(x, i).None?
    decreases |x| - k
  {
    NameFromNext(x, k);
    if NameUpTo(x, k).None? {
      NameFromIsFirst(x, k + 1);
    }
  }

  /** At the right place the pattern matches exactly if there is no line break in the way. */
  lemma WholeName(name: seq<byte>, filename: Option<seq<byte>>)
    ensures var x, given := Naming(name, filename), if filename.Some? then filename.value else [];
            && |name| < |x|
            && NameUpTo(x, |name|) == if Plain(name) && Plain(given) then Some(given) else None
  {
    var x := Naming(name, filename);
    assert x[|name|] == QUOTE && x[..|name|] == name;
    if filename.Some? {
      var rest := FILENAME + (filename.value + [QUOTE]);
      assert x[|name| + 1..] == rest;
      assert rest[|FILENAME|..|rest| - 1] == filename.value;
      assert Begins(rest, FILENAME);
    } else {
      assert x[|name| + 1..] == [];
    }
  }

  /** A printed disposition reads back exactly if its name and filename are on one line and no
      shorter name leads to a match. */
  lemma DispositionReads(name: seq<byte>, filename: Option<seq<byte>>)
    ensures var given := if filename.Some? then filename.value else [];
            DispositionOf(Disposition(name, filename)) == Some((name, given))
            <==> && '\r' !in name && '\n' !in name && '\r' !in given && '\n' !in given
                 && NoShorterName(Naming(name, filename), |name|)
  {
    var x := Naming(name, filename);
    var header := Disposition(name, filename);
    assert Begins(header, DISPOSITION) && header[|DISPOSITION|..] == x;
    WholeName(name, filename);
    assert x[..|name|] == name;
    if NameFrom(x, 0).Some? {
      NameFromIsFirst(x, 0);
    }
    if NameUpTo(x, |name|).Some? && NoShorterName(x, |name|) {
      NameFromIs(x, 0, |name|);
    }
  }

  /** No shorter name matches a name without quotes. */
  lemma UnquotedName(name: seq<byte>, filename: Option<seq<byte>>)
    requires QUOTE !in name
    ensures NoShorterName(Naming(name, filename), |name|)
  {
    assert forall k | 0 <= k < |name| :: Naming(name, filename)[k] == name[k] && name[k] in name;
  }

  /** This name comes back as a shorter one, with a filename it did not have: both are printed
      alike. */
  lemma QuotedName()
    ensures Disposition("a\"; filename=\"b", None) == Disposition("a", Some("b"))
    ensures DispositionOf(Disposition("a\"; filename=\"b", None)) == Some(("a", "b"))
  {
    assert Naming("a\"; filename=\"b", None) == Naming("a", Some("b"));
    UnquotedName("a", Some("b"));
    DispositionReads("a", Some("b"));
  }

  lemma TypeReads(contentType: seq<byte>)
    ensures TypeOf(CONTENT_TYPE + contentType)
         == if '\r' in contentType || '\n' in contentType then None else Some(contentType)
  {
    var header := CONTENT_TYPE + contentType;
    assert Begins(header, CONTENT_TYPE) && header[|CONTENT_TYPE|..] == contentType;
  }

  lemma DispositionIsNoType(name: seq<byte>, filename: Option<seq<byte>>)
    ensures TypeOf(Disposition(name, filename)).None?
  {
    var header := Disposition(name, filename);
    assert Lower(header[8]) != Lower(CONTENT_TYPE[8]);
  }

  // ---------- the headers of a field ----------

  datatype Field = Field(
    name: seq<byte>, filename: Option<seq<byte>>, contentType: Option<seq<byte>>, content: seq<byte>)

  function Given(text: Option<seq<byte>>): seq<byte> {
    if text.Some? then text.value else []
  }

  /** What a server should find out about the field. */
  function Known(field: Field): Meta {
    Meta(field.name, Given(field.filename), Given(field.contentType))
  }

  function HeaderLines(field: Field): seq<seq<byte>> {
    [Disposition(field.name, field.filename)]
    + (if field.contentType.Some? then [CONTENT_TYPE + field.contentType.value] else [])
  }

  ghost predicate OnOneLine(field: Field) {
    Plain(field.name) && Plain(Given(field.filename)) && Plain(Given(field.contentType))
  }

  ghost predicate Readable(field: Field) {
    OnOneLine(field) && NoShorterName(Naming(field.name, field.filename), |field.name|)
  }

  lemma LinesMeta(field: Field)
    ensures MetaOf(HeaderLines(field))
         == Typed(Noted(BLANK, Disposition(field.name, field.filename)), field.contentType)
  {
    var line := Disposition(field.name, field.filename);
    MetaSnoc([], line);
    assert [] + [line] == [line];
    if field.contentType.Some? {
      MetaSnoc([line], CONTENT_TYPE + field.contentType.value);
      TypeReads(field.contentType.value);
    } else {
      assert [line] + [] == [line];
    }
  }

  function Typed(meta: Meta, contentType: Option<seq<byte>>): Meta {
    if contentType.Some? then Noted(meta, CONTENT_TYPE + contentType.value) else meta
  }

  /** The printed headers of a field say what they should exactly if the field is readable. */
  lemma HeadersExactly(field: Field)
    ensures MetaOf(HeaderLines(field)) == Known(field) <==> Readable(field)
  {
    LinesMeta(field);
    DispositionIsNoType(field.name, field.filename);
    DispositionReads(field.name, field.filename);
    if field.contentType.Some? {
      TypeReads(field.contentType.value);
    }
    var x := Naming(field.name, field.filename);
    assert Begins(Disposition(field.name, field.filename), DISPOSITION);
    assert Disposition(field.name, field.filename)[|DISPOSITION|..] == x;
    WholeName(field.name, field.filename);
  }
}

/** File payloads: the record a file travels in, over a JSON layer taken as a faithful record codec. */
module FilePayloads {
  import opened Ascii
  import opened Base64

  datatype FilePayload = FilePayload(isFile: bool, isFileAlt: bool, filename: string, nameAlt: string,
                                     size: string, mime: bytes, dataB64: bytes, dataUrl: bytes)

  /** The JSON layer: writing a record and reading any text. White space around a document is skipped by
      the caller; a document itself has none at its ends. */
  datatype Json = Json(marshal: FilePayload -> bytes, unmarshal: bytes -> Option<FilePayload>)

  /** The layer gives this record back. (Go's does, for a record whose text is valid UTF-8.) */
  predicate Faithful(json: Json, fp: FilePayload) {
    json.unmarshal(json.marshal(fp)) == Some(fp) && TrimSpaceBytes(json.marshal(fp)) == json.marshal(fp)
  }

  predicate IsSpaceByte(b: byte) {
    b == 32 || 9 <= b <= 13
  }

  function TrimSpaceBytes(s: bytes): bytes {
    if s != [] && IsSpaceByte(s[0]) then TrimSpaceBytes(s[1..])
    else if s != [] && IsSpaceByte(s[|s| - 1]) then TrimSpaceBytes(s[..|s| - 1])
    else s
  }

  // ---- filepath.Base ----

  function StripSlashes(path: string): (p: string)
    ensures p <= path && (p == [] || p[|p| - 1] != '/')
    ensures path == [] || path[|path| - 1] != '/' ==> p == path
  {
    if path != [] && path[|path| - 1] == '/' then StripSlashes(path[..|path| - 1]) else path
  }

  /** The part after the last slash. */
  function AfterSlash(path: string): (b: string)
    ensures '/' !in b
    ensures |b| <= |path| && b == path[|path| - |b|..]
    ensures |b| < |path| ==> path[|path| - |b| - 1] == '/'
  {
    if path == [] || path[|path| - 1] == '/' then []
    else
      var b := AfterSlash(path[..|path| - 1]);
      b + [path[|path| - 1]]
  }

  function Base(path: string): string {
    if path == [] then "."
    else if StripSlashes(path) == [] then "/"
    else AfterSlash(StripSlashes(path))
  }

  lemma {:induction false} AfterSlashIs(b: string)
    requires '/' !in b
    ensures AfterSlash(b) == b
  {
    if b != [] {
      assert b[|b| - 1] in b;
      AfterSlashIs(b[..|b| - 1]);
    }
  }

  lemma {:induction false} AfterSlashOf(dir: string, name: string)
    requires '/' !in name
    ensures AfterSlash(dir + "/" + name) == name
  {
    var path := dir + "/" + name;
    if name == [] {
      assert path[|path| - 1] == '/';
    } else {
      var init := name[..|name| - 1];
      assert name[|name| - 1] in name && path[|path| - 1] == name[|name| - 1];
      assert path[..|path| - 1] == dir + "/" + init;
      AfterSlashOf(dir, init);
      assert init + [name[|name| - 1]] == name;
    }
  }

  lemma PlainNameKept(name: string)
    requires name != [] && '/' !in name
    ensures Base(name) == name
  {
    assert name[|name| - 1] in name;
    AfterSlashIs(name);
  }

  lemma DirectoryDropped(dir: string, name: string)
    requires name != [] && '/' !in name
    ensures Base(dir + "/" + name) == name
  {
    var path := dir + "/" + name;
    assert name[|name| - 1] in name && path[|path| - 1] == name[|name| - 1];
    AfterSlashOf(dir, name);
  }

  /** Of no path it makes a dot, of slashes alone one slash. */
  lemma {:induction false} BaseOfNothing(path: string)
    requires forall c :: c in path ==> c == '/'
    ensures Base(path) == if path == "" then "." else "/"
  {
    if path != "" {
      var init := path[..|path| - 1];
      assert path[|path| - 1] in path;
      forall c | c in init ensures c == '/' {
        assert c in path;
      }
      BaseOfNothing(init);
    }
  }

  /** What Base returns: a non-empty name without slashes (or the root), and itself on a second call. A plain
      name stays as it is, and any directory in front of it goes. */
  lemma BaseIsName(path: string, dir: string, name: string)
    ensures Base(path) != [] && ('/' !in Base(path) || Base(path) == "/")
    ensures Base(Base(path)) == Base(path)
    ensures name != [] && '/' !in name ==> Base(name) == name && Base(dir + "/" + name) == name
  {
    if Base(path) != "/" {
      PlainNameKept(Base(path));
    }
    if name != [] && '/' !in name {
      PlainNameKept(name);
      DirectoryDropped(dir, name);
    }
  }

  // ---- Encoding and decoding ----

  function FileRecord(filename: string, data: bytes): FilePayload {
    FilePayload(true, false, Base(filename), [], [], [], Encode(data), [])
  }

  function EncodeFilePayload(json: Json, filename: string, data: bytes): bytes {
    json.marshal(FileRecord(filename, data))
  }

  const COMMA: byte := 44

  function AfterComma(s: bytes): Option<bytes> {
    if s == [] then None else if s[0] == COMMA then Some(s[1..]) else AfterComma(s[1..])
  }

  /** The payload text of a record: its base64 field, else what follows the first comma of its data URL. */
  function RawText(fp: FilePayload): bytes {
    if fp.dataB64 == [] && fp.dataUrl != [] then
      var after := AfterComma(fp.dataUrl);
      if after.Some? then after.value else fp.dataUrl
    else fp.dataB64
  }

  function NameOf(fp: FilePayload): string {
    if fp.filename != [] then fp.filename else if fp.nameAlt != [] then fp.nameAlt else "received_file"
  }

  datatype Decoded = File(name: string, data: bytes) | NotAFile(plaintext: bytes)

  function DecodeFilePayload(json: Json, plaintext: bytes): Decoded {
    var parsed := json.unmarshal(TrimSpaceBytes(plaintext));
    if parsed.None? then NotAFile(plaintext) else DecodeRecord(parsed.value, plaintext)
  }

  function DecodeRecord(fp: FilePayload, plaintext: bytes): Decoded {
    var raw := RawText(fp);
    if (fp.isFile || fp.isFileAlt) && raw != [] && ValidBase64(raw) then File(NameOf(fp), Decode(raw).value)
    else NotAFile(plaintext)
  }

  /** Whatever is not decoded as a file is handed back as it came, white space included. */
  lemma PlaintextIsKept(json: Json, plaintext: bytes)
    ensures DecodeFilePayload(json, plaintext).NotAFile? ==> DecodeFilePayload(json, plaintext).plaintext == plaintext
  {
  }

  /** A payload from either source, with the name and the bytes it gives. */
  predicate Carries(raw: bytes, name: string, d: Decoded) {
    if raw != [] && ValidBase64(raw) then d.File? && d.name == name && Decode(raw) == Some(d.data) else d.NotAFile?
  }

  /** It is decoded as a file exactly if the text between its white space is a record, with one of the two flags and
      a payload that is not empty and valid base64: the field for it or else, of a data URL, what comes after the
      first comma. Any split of the text and of the URL may be given. */
  lemma FileIff(json: Json, front: bytes, text: bytes, back: bytes, head: bytes, tail: bytes)
    requires (forall b :: b in front + back ==> b in {9, 10, 11, 12, 13, 32})
    requires text == [] || (text[0] !in {9, 10, 11, 12, 13, 32} && text[|text| - 1] !in {9, 10, 11, 12, 13, 32})
    ensures var d, r := DecodeFilePayload(json, front + text + back), json.unmarshal(text);
            && (r.None? || !(r.value.isFile || r.value.isFileAlt) ==> d.NotAFile?)
            && (r.Some? && (r.value.isFile || r.value.isFileAlt) ==>
                  var fp := r.value;
                  var name := if fp.filename == "" then if fp.nameAlt == "" then "received_file" else fp.nameAlt else fp.filename;
                  && (fp.dataB64 != [] ==> Carries(fp.dataB64, name, d))
                  && (fp.dataB64 == [] && COMMA !in fp.dataUrl ==> Carries(fp.dataUrl, name, d))
                  && (fp.dataB64 == [] && fp.dataUrl == head + [COMMA] + tail && COMMA !in head ==> Carries(tail, name, d)))
  {
    TrimmedIs(front, text, back);
    var r := json.unmarshal(text);
    if r.Some? && r.value.dataB64 == [] {
      if COMMA !in r.value.dataUrl {
        NoComma(r.value.dataUrl);
      } else if COMMA !in head {
        AfterCommaOf(head, tail);
      }
    }
  }

  lemma {:induction false} NoComma(s: bytes)
    requires COMMA !in s
    ensures AfterComma(s) == None
  {
    if s != [] {
      NoComma(s[1..]);
    }
  }

  /** White space goes at both ends, and nothing else does. */
  lemma {:induction false} TrimmedIs(front: bytes, text: bytes, back: bytes)
    requires (forall b :: b in front + back ==> b in {9, 10, 11, 12, 13, 32})
    requires text == [] || (text[0] !in {9, 10, 11, 12, 13, 32} && text[|text| - 1] !in {9, 10, 11, 12, 13, 32})
    ensures TrimSpaceBytes(front + text + back) == text
    decreases |front| + |back|
  {
    var s := front + text + back;
    if front != [] {
      assert s[0] == front[0] && front[0] in front + back && s[1..] == front[1..] + text + back;
      assert forall b :: b in front[1..] + back ==> b in front + back;
      TrimmedIs(front[1..], text, back);
    } else if back != [] {
      var n := |back| - 1;
      assert s[|s| - 1] == back[n] && back[n] in front + back && s[..|s| - 1] == front + text + back[..n];
      assert forall b :: b in front + back[..n] ==> b in front + back;
      TrimmedIs(front, text, back[..n]);
      if text == [] && IsSpaceByte(s[0]) {
        AllSpaces(s);
      }
    } else {
      assert s == text;
    }
  }

  lemma {:induction false} AllSpaces(s: bytes)
    requires forall b :: b in s ==> IsSpaceByte(b)
    ensures TrimSpaceBytes(s) == []
  {
    if s != [] {
      assert s[0] in s;
      AllSpaces(s[1..]);
    }
  }

  lemma DecodeOfSent(json: Json, fp: FilePayload)
    requires Faithful(json, fp)
    ensures DecodeFilePayload(json, json.marshal(fp)) == DecodeRecord(fp, json.marshal(fp))
  {
    assert TrimSpaceBytes(json.marshal(fp)) == json.marshal(fp);
  }

  lemma EncodedRecord(fp: FilePayload, data: bytes, plaintext: bytes)
    requires fp.isFile && fp.filename != [] && fp.dataB64 == Encode(data) && fp.dataUrl == []
    ensures DecodeRecord(fp, plaintext) == if data != [] then File(fp.filename, data) else NotAFile(plaintext)
  {
    RoundTrip(data);
  }

  /** A file comes back under its base name with its bytes, exactly when it is not empty: an empty file is
      handed to the reader as the raw JSON text. */
  lemma FileRoundTrip(json: Json, filename: string, data: bytes)
    requires Faithful(json, FileRecord(filename, data))
    ensures DecodeFilePayload(json, EncodeFilePayload(json, filename, data)) ==
            if data != [] then File(Base(filename), data) else NotAFile(EncodeFilePayload(json, filename, data))
  {
    var fp := FileRecord(filename, data);
    DecodeOfSent(json, fp);
    BaseIsName(filename, [], []);
    EncodedRecord(fp, data, json.marshal(fp));
  }

  const DATA_SCHEME: bytes := [100, 97, 116, 97, 58]
  const BASE64_MARK: bytes := [59, 98, 97, 115, 101, 54, 52]

  /** A data URL as FileReader writes it. */
  function DataUrl(scheme: bytes, mime: bytes, mark: bytes, data: bytes): bytes {
    scheme + mime + mark + [COMMA] + Encode(data)
  }

  /** The record the web dashboard sends for a file. */
  function DashboardRecord(name: string, size: string, mime: bytes, data: bytes): FilePayload {
    FilePayload(false, true, [], name, size, mime, [], DataUrl(DATA_SCHEME, mime, BASE64_MARK, data))
  }

  /** Which fields the two senders fill: each marks and names the file under its own pair of keys. */
  lemma SentFields(path: string, name: string, size: string, mime: bytes, data: bytes)
    ensures var fp := FileRecord(path, data);
            fp.isFile && !fp.isFileAlt && fp.filename == Base(path) && fp.nameAlt == "" && fp.dataB64 == Encode(data) && fp.dataUrl == []
    ensures var fp := DashboardRecord(name, size, mime, data);
            !fp.isFile && fp.isFileAlt && fp.filename == "" && fp.nameAlt == name && fp.dataB64 == [] && fp.mime == mime
            && fp.size == size && fp.dataUrl[..5] == [100, 97, 116, 97, 58]
  {
  }

  lemma {:induction false} AfterCommaOf(s: bytes, t: bytes)
    requires COMMA !in s
    ensures AfterComma(s + [COMMA] + t) == Some(t)
  {
    if s == [] {
      assert s + [COMMA] + t == [COMMA] + t;
    } else {
      assert (s + [COMMA] + t)[1..] == s[1..] + [COMMA] + t;
      AfterCommaOf(s[1..], t);
    }
  }

  lemma {:induction false} AfterCommaEarly(s: bytes, t: bytes) returns (u: bytes)
    requires COMMA in s
    ensures AfterComma(s + t) == Some(u + t)
  {
    assert (s + t)[1..] == s[1..] + t;
    if s[0] == COMMA {
      u := s[1..];
    } else {
      u := AfterCommaEarly(s[1..], t);
    }
  }

  /** What is left of a data URL after its first comma: the encoded data, or text that is not base64
      because the end of the header, with a symbol foreign to base64, is still part of it. */
  lemma AfterFirstComma(scheme: bytes, mime: bytes, mark: bytes, data: bytes)
    requires COMMA !in scheme && COMMA !in mark
    requires mark != [] && Value(mark[0]).None? && mark[0] != PAD && mark[0] != 10 && mark[0] != 13
    ensures var after := AfterComma(DataUrl(scheme, mime, mark, data));
            && after.Some?
            && if COMMA in mime then !ValidBase64(after.value) else after.value == Encode(data)
  {
    var url := DataUrl(scheme, mime, mark, data);
    if COMMA in mime {
      var tail := mark + [COMMA] + Encode(data);
      assert url == (scheme + mime) + tail;
      var u := AfterCommaEarly(scheme + mime, tail);
      assert (u + tail)[|u|] == mark[0];
      ForeignSymbol(u + tail, |u|);
    } else {
      AfterCommaOf(scheme + mime + mark, Encode(data));
    }
  }

  /** The dashboard's form gives the same file, exactly when it is not empty and its media type has no
      comma; a comma there ends the URL's header too early and the rest is not base64. */
  lemma DashboardRoundTrip(json: Json, name: string, size: string, mime: bytes, data: bytes)
    requires Faithful(json, DashboardRecord(name, size, mime, data))
    ensures var sent := json.marshal(DashboardRecord(name, size, mime, data));
            DecodeFilePayload(json, sent) ==
            if data != [] && COMMA !in mime then File(if name != [] then name else "received_file", data) else NotAFile(sent)
  {
    RoundTrip(data);
    var fp := DashboardRecord(name, size, mime, data);
    DecodeOfSent(json, fp);
    AfterFirstComma(DATA_SCHEME, mime, BASE64_MARK, data);
  }
}

/** Node's `path.extname` and `path.basename(name, ext)` on a bare file name
    (one without '/'), as the upload helpers use them. */
module PathNames {
  import opened Wrappers

  /** The position of the last '.' in `s`, if any. */
  function LastDot(s: string): (k: Option<nat>)
    ensures k.None? <==> '.' !in s
    ensures k.Some? ==> k.value < |s| && s[k.value] == '.' && '.' !in s[k.value + 1..]
  {
    if s == [] then None
    else if s[|s| - 1] == '.' then Some(|s| - 1)
    else
      var k := LastDot(s[..|s| - 1]);
      assert s == s[..|s| - 1] + [s[|s| - 1]];
      if k.Some? then
        assert s[k.value + 1..] == s[..|s| - 1][k.value + 1..] + [s[|s| - 1]];
        k
      else k
  }

  /** `path.extname(name)`: from the last '.' to the end, except when that dot
      opens the name (".bashrc") or the name is "..", which have none. */
  function Extname(name: string): (ext: string)
    requires '/' !in name
    ensures ext == "" || (ext[0] == '.' && '.' !in ext[1..] && |ext| < |name| && name[|name| - |ext|..] == ext)
    ensures ext == "" <==> '.' !in name || LastDot(name) == Some(0) || name == ".."
  {
    match LastDot(name)
    case None => ""
    case Some(k) =>
      if k == 0 || name == ".." then ""
      else
        assert name[k..][1..] == name[k + 1..];
        name[k..]
  }

  /** `path.basename(name, path.extname(name))`: the name without its extension. */
  function Stem(name: string): (stem: string)
    requires '/' !in name
    ensures stem + Extname(name) == name
  {
    name[..|name| - |Extname(name)|]
  }

  /** Only the last dot starts the extension. */
  lemma DottedNameExample()
    ensures Extname("a.b.c") == ".c" && Stem("a.b.c") == "a.b"
  {
    assert LastDot("a.b.c") == Some(3);
  }

  /** The extension keeps its letter case. */
  lemma UpperCaseExample()
    ensures Extname("m.GLB") == ".GLB"
  {
    assert "m.GLB"[..4] == "m.GL" && "m.GL"[..3] == "m.G" && "m.G"[..2] == "m.";
    assert LastDot("m.GLB") == Some(1);
  }

  /** A dot file has no extension. */
  lemma DotFileExample()
    ensures Extname(".env") == "" && Stem(".env") == ".env"
  {
    assert ".env"[..3] == ".en" && ".en"[..2] == ".e" && ".e"[..1] == ".";
    assert LastDot(".env") == Some(0);
  }

  /** ".." has no extension, "..." has "."; a trailing dot is an extension. */
  lemma DotsExample()
    ensures Extname("..") == "" && Extname("...") == "." && Extname("a.") == "."
  {
    assert LastDot("...") == Some(2);
    assert LastDot("a.") == Some(1);
  }
}

/** src/helpers/s3.helper.ts: the S3 type of a MIME type and the object key of an
    uploaded image. The clock and the `speakingurl` slug are parameters. */
module S3Helper {
  import opened Wrappers
  import opened JsText
  import PathNames

  /** `mimeType.split('/')[1]`: the text between the first and the second '/',
      undefined when there is no '/'. */
  function MimeTypeToS3Type(mimeType: string): (t: Option<string>)
    ensures t.Some? ==> '/' !in t.value
  {
    var parts := Split(mimeType, '/');
    if |parts| >= 2 then Some(parts[1]) else None
  }

  /** A MIME type without '/' has no S3 type; "type/subtype" has the subtype. */
  lemma S3TypeIsSubtype(kind: string, subtype: string, m: string)
    requires '/' !in kind && '/' !in subtype && '/' !in m
    ensures MimeTypeToS3Type(kind + "/" + subtype) == Some(subtype)
    ensures MimeTypeToS3Type(m) == None
  {
    SplitAtFirst(kind, '/', subtype);
    SplitNoSeparator(subtype, '/');
    assert kind + "/" + subtype == kind + ['/'] + subtype;
    SplitNoSeparator(m, '/');
  }

  lemma PngExample()
    ensures MimeTypeToS3Type("image/png") == Some("png")
  {
    assert "image/png" == "image" + "/" + "png";
    S3TypeIsSubtype("image", "png", "");
  }

  /** How a template literal prints the S3 type: "undefined" when there is none. */
  function S3TypeText(mimeType: string): string {
    match MimeTypeToS3Type(mimeType)
    case Some(t) => t
    case None => "undefined"
  }

  /** The suffix the key ends with: the original extension, dot and case kept,
      or "." and the S3 type when the name has no extension. */
  function KeySuffix(mimeType: string, originalName: string): (suffix: string)
    requires '/' !in originalName
    ensures PathNames.Extname(originalName) != "" ==> suffix == PathNames.Extname(originalName)
    ensures PathNames.Extname(originalName) == "" ==> suffix == "." + S3TypeText(mimeType)
    ensures suffix != [] && suffix[0] == '.'
  {
    var ext := PathNames.Extname(originalName);
    if ext == "" then "." + S3TypeText(mimeType) else ext
  }

  /** `getSluggifiedKeyWithExtension` at instant `now`: "<now>_<slug of the
      stem>" followed by exactly one suffix. */
  function SluggifiedKeyWithExtension(mimeType: string, originalName: string, now: int,
                                      slug: string -> string): (key: string)
    requires '/' !in originalName
    ensures key == IntToDecimal(now) + "_" + slug(PathNames.Stem(originalName)) + KeySuffix(mimeType, originalName)
  {
    var s3Type := S3TypeText(mimeType);
    var stem := slug(PathNames.Stem(originalName));
    var key := IntToDecimal(now) + "_" + stem;
    var ext := PathNames.Extname(originalName);
    if ext == "" then key + "." + s3Type else key + ext
  }

  /** The key keeps the original extension exactly and puts nothing after it;
      a name without an extension gets the MIME subtype instead. */
  lemma KeyKeepsExtension(mimeType: string, originalName: string, now: int, slug: string -> string)
    requires '/' !in originalName
    ensures var key := SluggifiedKeyWithExtension(mimeType, originalName, now, slug);
      var ext := PathNames.Extname(originalName);
      && (ext != "" ==> |key| > |ext| && key[|key| - |ext|..] == ext)
      && (ext == "" ==> key[|key| - |S3TypeText(mimeType)| - 1..] == "." + S3TypeText(mimeType))
  {
    var key := SluggifiedKeyWithExtension(mimeType, originalName, now, slug);
    var head := IntToDecimal(now) + "_" + slug(PathNames.Stem(originalName));
    var suffix := KeySuffix(mimeType, originalName);
    assert key == head + suffix;
    assert key[|head|..] == suffix;
  }
}

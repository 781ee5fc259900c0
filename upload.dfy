/**
 * The upload gate (the multer `fileFilter`) and the photo naming rule of the
 * `resize` middleware.
 */
module Upload {
  import opened Types

  const ImagePrefix: string := "image/"
  const RejectMessage: string := "That file type isn't allowed"

  /** What the filter hands to multer's callback: an error (or null) and the accept flag. */
  datatype FilterDecision = FilterDecision(error: Option<string>, accept: bool)

  /** The MIME type's first six characters are "image/". */
  predicate IsImageType(mimetype: string) {
    |mimetype| >= |ImagePrefix| && mimetype[..|ImagePrefix|] == ImagePrefix
  }

  /** multerOptions.fileFilter: accept exactly the MIME types that start with "image/". */
  function FileFilter(mimetype: string): (d: FilterDecision)
    ensures d.accept <==> IsImageType(mimetype)
    ensures d.accept ==> d.error == None
    ensures !d.accept ==> d.error == Some(RejectMessage)
  {
    if ImagePrefix <= mimetype then FilterDecision(None, true)
    else FilterDecision(Some(RejectMessage), false)
  }

  /**
   * The single-file upload step: no file passes through, an accepted file
   * becomes `req.file`, a rejected one stops the request with the filter's error.
   */
  function UploadGate(file: Option<UploadedFile>): (r: Result<Option<UploadedFile>, Error>)
    ensures file.None? ==> r == Ok(None)
    ensures file.Some? ==> (r.Ok? <==> IsImageType(file.value.mimetype))
    ensures r.Ok? ==> r.value == file
    ensures r.Err? ==> r.error == FileTypeNotAllowed(RejectMessage)
  {
    match file
    case None => Ok(None)
    case Some(f) =>
      var d := FileFilter(f.mimetype);
      if d.accept then Ok(Some(f)) else Err(FileTypeNotAllowed(d.error.value))
  }

  /** JavaScript's `String.prototype.split` with a one-character separator. */
  function Split(s: string, sep: char): (parts: seq<string>)
    ensures |parts| >= 1
    ensures forall i :: 0 <= i < |parts| ==> sep !in parts[i]
    ensures sep in s <==> |parts| > 1
  {
    if s == [] then [""]
    else
      assert s == [s[0]] + s[1..];
      var tail := Split(s[1..], sep);
      if s[0] == sep then [""] + tail
      else [[s[0]] + tail[0]] + tail[1..]
  }

  /** `Array.prototype.join` with a one-character separator. */
  function Join(parts: seq<string>, sep: char): string
    requires |parts| >= 1
  {
    if |parts| == 1 then parts[0] else parts[0] + [sep] + Join(parts[1..], sep)
  }

  lemma {:induction false} JoinCons(c: char, parts: seq<string>, sep: char)
    requires |parts| >= 1
    ensures Join([[c] + parts[0]] + parts[1..], sep) == [c] + Join(parts, sep)
  {
    var q := [[c] + parts[0]] + parts[1..];
    assert q[1..] == parts[1..];
  }

  /** Splitting and joining again gives back the original string. */
  lemma {:induction false} JoinSplit(s: string, sep: char)
    ensures Join(Split(s, sep), sep) == s
  {
    if s != [] {
      var tail := Split(s[1..], sep);
      JoinSplit(s[1..], sep);
      if s[0] == sep {
        assert ([""] + tail)[1..] == tail;
      } else {
        JoinCons(s[0], tail, sep);
      }
    }
  }

  /** A string without the separator splits into itself alone. */
  lemma {:induction false} SplitNoSeparator(s: string, sep: char)
    requires sep !in s
    ensures Split(s, sep) == [s]
  {
    if s != [] {
      SplitNoSeparator(s[1..], sep);
      assert [s[0]] + s[1..] == s;
    }
  }

  /** The first segment ends at the first separator. */
  lemma {:induction false} SplitAfterFirst(p: string, sep: char, q: string)
    requires sep !in p
    ensures Split(p + [sep] + q, sep) == [p] + Split(q, sep)
  {
    var s := p + [sep] + q;
    if p == [] {
      assert s[1..] == q;
    } else {
      assert s[1..] == p[1..] + [sep] + q;
      SplitAfterFirst(p[1..], sep, q);
      assert [p[0]] + p[1..] == p;
    }
  }

  /**
   * `mimetype.split('/')[1]`; an array index past the end is `undefined`,
   * which a template literal prints as "undefined".
   */
  function Extension(mimetype: string): (ext: string)
    ensures '/' !in ext
    ensures '/' !in mimetype ==> ext == "undefined"
    ensures '/' in mimetype ==> |Split(mimetype, '/')| > 1 && ext == Split(mimetype, '/')[1]
  {
    var parts := Split(mimetype, '/');
    if |parts| > 1 then parts[1]
    else SplitNoSeparator(mimetype, '/'); "undefined"
  }

  /** The stored photo name: the random token, a dot, and the extension. */
  function PhotoName(token: string, mimetype: string): (name: string)
    ensures |name| == |token| + 1 + |Extension(mimetype)|
    ensures name[..|token|] == token && name[|token|] == '.'
    ensures name[|token| + 1..] == Extension(mimetype)
    ensures '/' !in name[|token|..]
  {
    token + "." + Extension(mimetype)
  }

  /** For an accepted upload the extension is the MIME subtype: what follows "image/" up to any further '/'. */
  lemma ExtensionIsSubtype(mimetype: string)
    requires IsImageType(mimetype)
    ensures Extension(mimetype) == Split(mimetype[|ImagePrefix|..], '/')[0]
    ensures '/' !in Extension(mimetype)
    ensures Extension(mimetype) <= mimetype[|ImagePrefix|..]
  {
    var rest := mimetype[|ImagePrefix|..];
    assert mimetype == "image" + ['/'] + rest;
    SplitAfterFirst("image", '/', rest);
    var tail := Split(rest, '/');
    JoinSplit(rest, '/');
    if |tail| > 1 {
      assert rest == tail[0] + ['/'] + Join(tail[1..], '/');
    }
  }

  /** "image/<subtype>" with a plain subtype names the photo "<token>.<subtype>". */
  lemma PhotoNameOfImage(token: string, subtype: string)
    requires '/' !in subtype
    ensures PhotoName(token, ImagePrefix + subtype) == token + "." + subtype
  {
    assert ImagePrefix + subtype == "image" + ['/'] + subtype;
    SplitAfterFirst("image", '/', subtype);
    SplitNoSeparator(subtype, '/');
  }

  /** Every photo name of an accepted upload ends in "." followed by a segment without '/'. */
  lemma PhotoNameEndsWithExtension(token: string, mimetype: string)
    requires IsImageType(mimetype)
    ensures var name := PhotoName(token, mimetype);
            var ext := Split(mimetype[|ImagePrefix|..], '/')[0];
            |name| > |ext| && name[|name| - |ext| - 1..] == "." + ext && name[..|token|] == token
  {
    ExtensionIsSubtype(mimetype);
    var name := PhotoName(token, mimetype);
    assert name == token + ("." + Extension(mimetype));
  }
}

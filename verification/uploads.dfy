/** The upload helpers: the multipart limits and file filter applied before a
    controller sees any file, the resource-type choice made for each upload,
    and `extractPublicId`, which recovers a blob-store public id from the URL
    it returned. The transfer to the blob store itself is not modelled. */
module Uploads {
  import opened Common

  // ---------------------------------------------------------------------------
  // String splitting, as JavaScript's `split` with a one-character separator

  /** `s.split(sep)`: never empty, an empty string gives `[""]`. */
  function Split(s: string, sep: char): (parts: seq<string>)
    ensures |parts| >= 1
    decreases |s|
  {
    if |s| == 0 then [""] else Prepend(s[0], Split(s[1..], sep), sep)
  }

  /** The pieces of `[c] + t` from the pieces of `t`: a separator opens a new
      empty first piece, any other character extends the first piece. */
  function Prepend(c: char, rest: seq<string>, sep: char): (parts: seq<string>)
    requires |rest| >= 1
    ensures |parts| >= 1
  {
    if c == sep then [""] + rest else [[c] + rest[0]] + rest[1..]
  }

  lemma PrependAppend(c: char, a: seq<string>, b: seq<string>, sep: char)
    requires |a| >= 1
    ensures Prepend(c, a + b, sep) == Prepend(c, a, sep) + b
  {
    if c != sep {
      assert (a + b)[0] == a[0];
      assert (a + b)[1..] == a[1..] + b;
    }
  }

  /** `parts.join(sep)`; the empty list joins to `""`. */
  function Join(parts: seq<string>, sep: char): string
    decreases |parts|
  {
    if |parts| == 0 then ""
    else if |parts| == 1 then parts[0]
    else parts[0] + [sep] + Join(parts[1..], sep)
  }

  predicate NoSep(parts: seq<string>, sep: char)
  {
    forall i :: 0 <= i < |parts| ==> sep !in parts[i]
  }

  /** No piece of a split contains the separator. */
  lemma {:induction false} SplitHasNoSep(s: string, sep: char)
    ensures NoSep(Split(s, sep), sep)
    decreases |s|
  {
    if |s| != 0 {
      SplitHasNoSep(s[1..], sep);
      var rest := Split(s[1..], sep);
      var parts := Prepend(s[0], rest, sep);
      if s[0] != sep {
        forall i | 0 <= i < |parts|
          ensures sep !in parts[i]
        {
          if i > 0 {
            assert parts[i] == rest[i];
          } else {
            assert sep !in rest[0];
          }
        }
      }
    }
  }

  /** Joining the pieces of a split gives the original string back. */
  lemma {:induction false} JoinSplit(s: string, sep: char)
    ensures Join(Split(s, sep), sep) == s
    decreases |s|
  {
    if |s| != 0 {
      JoinSplit(s[1..], sep);
      var rest := Split(s[1..], sep);
      assert Split(s, sep) == Prepend(s[0], rest, sep);
      if s[0] == sep {
        if |rest| == 1 {
          assert Join(rest, sep) == rest[0];
        }
        assert Join([""] + rest, sep) == "" + [sep] + Join(rest, sep);
      } else {
        JoinConsHead(s[0], rest, sep);
      }
      assert s == [s[0]] + s[1..];
    }
  }

  /** Prefixing the first piece prefixes the joined string. */
  lemma JoinConsHead(c: char, parts: seq<string>, sep: char)
    requires |parts| >= 1
    ensures Join([[c] + parts[0]] + parts[1..], sep) == [c] + Join(parts, sep)
  {
    var p := [[c] + parts[0]] + parts[1..];
    assert p[1..] == parts[1..];
  }

  /** Splitting at a separator splits the pieces on either side. */
  lemma {:induction false} SplitAtSep(x: string, y: string, sep: char)
    ensures Split(x + [sep] + y, sep) == Split(x, sep) + Split(y, sep)
    decreases |x|
  {
    var s := x + [sep] + y;
    if |x| == 0 {
      assert s == [sep] + y;
      assert s[1..] == y;
    } else {
      assert s[0] == x[0];
      assert s[1..] == x[1..] + [sep] + y;
      SplitAtSep(x[1..], y, sep);
      PrependAppend(x[0], Split(x[1..], sep), Split(y, sep), sep);
    }
  }

  /** A string without the separator splits into itself alone. */
  lemma {:induction false} SplitWithoutSep(s: string, sep: char)
    requires sep !in s
    ensures Split(s, sep) == [s]
    decreases |s|
  {
    if |s| != 0 {
      assert sep !in s[1..];
      SplitWithoutSep(s[1..], sep);
      assert Split(s, sep) == Prepend(s[0], [s[1..]], sep);
      assert s == [s[0]] + s[1..];
    }
  }

  /** The converse round trip: pieces free of the separator are recovered by
      splitting their join. */
  lemma {:induction false} SplitJoin(parts: seq<string>, sep: char)
    requires |parts| >= 1 && NoSep(parts, sep)
    ensures Split(Join(parts, sep), sep) == parts
    decreases |parts|
  {
    if |parts| == 1 {
      SplitWithoutSep(parts[0], sep);
    } else {
      SplitWithoutSep(parts[0], sep);
      SplitJoin(parts[1..], sep);
      SplitAtSep(parts[0], Join(parts[1..], sep), sep);
      assert [parts[0]] + parts[1..] == parts;
    }
  }

  // ---------------------------------------------------------------------------
  // extractPublicId

  /** The last path segment of a URL, up to its first dot. */
  function BaseName(url: string): string
  {
    var parts := Split(url, '/');
    Split(parts[|parts| - 1], '.')[0]
  }

  /** `urlParts.slice(-3, -1)`: at most the two segments before the last. */
  function FolderParts(parts: seq<string>): (f: seq<string>)
    requires |parts| >= 1
    ensures |f| == if |parts| >= 3 then 2 else |parts| - 1
  {
    var start := if |parts| >= 3 then |parts| - 3 else 0;
    parts[start .. |parts| - 1]
  }

  /** `extractPublicId`: the two folder segments before the file name,
      joined by "/", then "/", then the file name up to its first dot. A
      missing or empty URL gives null. */
  function ExtractPublicId(url: Option<string>): (r: Option<string>)
    ensures r.Some? <==> Truthy(url)
    ensures r.Some? ==>
      var parts := Split(url.value, '/');
      r.value == Join(FolderParts(parts), '/') + "/" + BaseName(url.value)
  {
    if !Truthy(url) then None
    else
      var parts := Split(url.value, '/');
      Some(Join(FolderParts(parts), '/') + "/" + BaseName(url.value))
  }

  /** A URL ending in `/<a>/<b>/<file>` splits into the prefix's pieces
      followed by those three segments. */
  lemma SplitTrailingSegments(prefix: string, a: string, b: string, file: string)
    requires '/' !in a && '/' !in b && '/' !in file
    ensures Split(prefix + "/" + a + "/" + b + "/" + file, '/') == Split(prefix, '/') + [a, b, file]
  {
    var pa := prefix + "/" + a;
    var pab := pa + "/" + b;
    SplitWithoutSep(a, '/');
    SplitWithoutSep(b, '/');
    SplitWithoutSep(file, '/');
    SplitAtSep(prefix, a, '/');
    SplitAtSep(pa, b, '/');
    SplitAtSep(pab, file, '/');
    assert Split(pa, '/') == Split(prefix, '/') + [a];
    assert Split(pab, '/') == Split(prefix, '/') + [a] + [b];
    assert Split(pab + "/" + file, '/') == Split(prefix, '/') + [a] + [b] + [file];
  }

  /** The part of `<stem>.<ext>` before the first dot is `stem`. */
  lemma BaseOfFile(stem: string, ext: string)
    requires '.' !in stem
    ensures Split(stem + "." + ext, '.')[0] == stem
  {
    SplitWithoutSep(stem, '.');
    SplitAtSep(stem, ext, '.');
  }

  /** For a blob-store URL `<prefix>/<a>/<b>/<stem>.<ext>` the public id is
      `<a>/<b>/<stem>`, whatever the prefix. */
  lemma PublicIdOfStoredUrl(prefix: string, a: string, b: string, stem: string, ext: string)
    requires '/' !in a && '/' !in b && '/' !in stem && '/' !in ext
    requires '.' !in stem
    ensures ExtractPublicId(Some(prefix + "/" + a + "/" + b + "/" + (stem + "." + ext)))
         == Some(a + "/" + b + "/" + stem)
  {
    var file := stem + "." + ext;
    var url := prefix + "/" + a + "/" + b + "/" + file;
    assert '/' !in file;
    SplitTrailingSegments(prefix, a, b, file);
    var parts := Split(url, '/');
    assert parts[|parts| - 1] == file;
    assert FolderParts(parts) == [a, b];
    assert Join([a, b], '/') == a + "/" + b;
    BaseOfFile(stem, ext);
    assert BaseName(url) == stem;
  }

  // ---------------------------------------------------------------------------
  // File filter

  /** The alternatives of the filter's regular expression. */
  const AllowedTypes: seq<string> := ["jpeg", "jpg", "png", "gif", "webp", "pdf"]

  /** `p` occurs somewhere in `s`. */
  predicate Contains(s: string, p: string)
    decreases |s|
  {
    if p <= s then true
    else if |s| == 0 then false
    else Contains(s[1..], p)
  }

  /** `Contains` agrees with the positional definition of a substring. */
  lemma {:induction false} ContainsIffOccurs(s: string, p: string)
    ensures Contains(s, p) <==> exists i :: 0 <= i <= |s| && p <= s[i..]
    decreases |s|
  {
    if p <= s {
      assert s[0..] == s;
    } else if |s| != 0 {
      ContainsIffOccurs(s[1..], p);
      if Contains(s[1..], p) {
        var i :| 0 <= i <= |s[1..]| && p <= s[1..][i..];
        assert s[1..][i..] == s[i + 1..];
      } else {
        forall i | 0 <= i <= |s|
          ensures !(p <= s[i..])
        {
          if i > 0 {
            assert s[i..] == s[1..][i - 1..];
          } else {
            assert s[0..] == s;
          }
        }
      }
    } else {
      forall i | 0 <= i <= |s|
        ensures !(p <= s[i..])
      {
        assert i == 0 && s[i..] == s;
      }
    }
  }

  /** `/jpeg|jpg|png|gif|webp|pdf/.test(s)`: unanchored, so any occurrence of
      an alternative anywhere in `s` matches. */
  predicate MatchesAllowed(s: string)
  {
    exists k :: 0 <= k < |AllowedTypes| && Contains(s, AllowedTypes[k])
  }

  /** `originalname.split(".").pop()`: the text after the last dot, or the
      whole name when it has none. */
  function Extension(name: string): string
  {
    var parts := Split(name, '.');
    parts[|parts| - 1]
  }

  datatype File = File(fieldname: string, originalname: string, mimetype: string, size: nat)

  /** `fileFilter`: both the lower-cased extension and the MIME type must
      match the pattern. */
  predicate FileAccepted(f: File)
  {
    MatchesAllowed(ToLower(Extension(f.originalname))) && MatchesAllowed(f.mimetype)
  }

  /** The extension of `<stem>.<ext>` is `ext`, whatever dots `stem` has. */
  lemma ExtensionOf(stem: string, ext: string)
    requires '.' !in ext
    ensures Extension(stem + "." + ext) == ext
  {
    SplitWithoutSep(ext, '.');
    SplitAtSep(stem, ext, '.');
  }

  /** A name without a dot is its own extension. */
  lemma ExtensionWithoutDot(name: string)
    requires '.' !in name
    ensures Extension(name) == name
  {
    SplitWithoutSep(name, '.');
  }

  /** The match is unanchored: an allowed word anywhere in `s` matches,
      whatever surrounds it. */
  lemma AllowedAnywhere(pre: string, k: nat, post: string)
    requires k < |AllowedTypes|
    ensures MatchesAllowed(pre + AllowedTypes[k] + post)
  {
    var s := pre + AllowedTypes[k] + post;
    assert AllowedTypes[k] <= s[|pre|..];
    ContainsIffOccurs(s, AllowedTypes[k]);
  }

  /** Every allowed word has at least three letters, so no shorter string
      matches. */
  lemma ShortNeverMatches(s: string)
    requires |s| < 3
    ensures !MatchesAllowed(s)
  {
    forall k | 0 <= k < |AllowedTypes|
      ensures !Contains(s, AllowedTypes[k])
    {
      ContainsIffOccurs(s, AllowedTypes[k]);
    }
  }

  /** A file named `<stem>.<pre><word><post>` with a MIME type that contains
      an allowed word anywhere passes the filter: neither test is anchored. */
  lemma FilterIsUnanchored(stem: string, pre: string, k: nat, post: string, mime: string, field: string, size: nat)
    requires k < |AllowedTypes|
    requires '.' !in pre + AllowedTypes[k] + post
    requires forall i :: 0 <= i < |pre + AllowedTypes[k] + post| ==> !('A' <= (pre + AllowedTypes[k] + post)[i] <= 'Z')
    requires MatchesAllowed(mime)
    ensures FileAccepted(File(field, stem + "." + (pre + AllowedTypes[k] + post), mime, size))
  {
    var ext := pre + AllowedTypes[k] + post;
    ExtensionOf(stem, ext);
    assert ToLower(ext) == ext;
    AllowedAnywhere(pre, k, post);
  }

  // ---------------------------------------------------------------------------
  // Limits and resource type

  /** `limits: { fileSize: 10 * 1024 * 1024 }`. */
  const MaxFileSize: nat := 10 * 1024 * 1024

  /** `upload.array("images", 10)`. */
  const MaxFiles: nat := 10
  const MultiField: string := "images"

  /** `upload.single("image")`. */
  const SingleField: string := "image"

  /** A file multer lets through: the expected field, accepted by the
      filter and no larger than the size limit. */
  predicate FileAllowed(f: File, field: string)
  {
    f.fieldname == field && FileAccepted(f) && f.size <= MaxFileSize
  }

  /** `uploadMultiple`: every file must be allowed and there may be at most
      ten; any violation is a multer error, which the server answers with a
      500. The accepted files reach the controller in upload order. */
  function UploadMultiple(files: seq<File>): (r: Result<seq<File>>)
    ensures r.Ok? <==> |files| <= MaxFiles && forall i :: 0 <= i < |files| ==> FileAllowed(files[i], MultiField)
    ensures r.Ok? ==> r.value == files
    ensures r.Err? ==> r.error == ServerError
  {
    if |files| <= MaxFiles && forall i :: 0 <= i < |files| ==> FileAllowed(files[i], MultiField)
    then Ok(files) else Err(ServerError)
  }

  /** `uploadSingle`: at most one allowed file in field "image"; none at all
      is fine and leaves `req.file` unset. */
  function UploadSingle(files: seq<File>): (r: Result<Option<File>>)
    ensures r.Ok? <==> |files| == 0 || (|files| == 1 && FileAllowed(files[0], SingleField))
    ensures r.Ok? && |files| == 0 ==> r.value.None?
    ensures r.Ok? && |files| == 1 ==> r.value == Some(files[0])
    ensures r.Err? ==> r.error == ServerError
  {
    if |files| == 0 then Ok(None)
    else if |files| == 1 && FileAllowed(files[0], SingleField) then Ok(Some(files[0]))
    else Err(ServerError)
  }

  datatype ResourceType = Image | Raw

  /** The size-limiting transformation applied to images. */
  datatype Transformation = Limit(width: nat, height: nat)

  datatype UploadOptions = UploadOptions(folder: string, resourceType: ResourceType, transformation: seq<Transformation>)

  /** The options `uploadToCloudinary` passes: images are stored as images and
      resized to fit 1000x1000, everything else (a PDF) is stored raw
      without transformation. */
  function UploadOptionsFor(f: File, folder: string): (o: UploadOptions)
    ensures o.folder == folder
    ensures o.resourceType == Image <==> "image/" <= f.mimetype
    ensures |o.transformation| > 0 <==> o.resourceType == Image
  {
    if "image/" <= f.mimetype then UploadOptions(folder, Image, [Limit(1000, 1000)])
    else UploadOptions(folder, Raw, [])
  }

  /** What the filter lets through is stored by kind: a picture sent as
      `<stem>.<word>` under `image/<word>` is accepted and kept as an image
      resized to fit 1000x1000, and a PDF sent under `application/pdf` is
      accepted and kept raw without transformation. */
  lemma AcceptedUploadsStoredByKind(stem: string, k: nat, field: string, size: nat, folder: string)
    requires k < |AllowedTypes|
    ensures var pdf := AllowedTypes[k] == "pdf";
      var f := File(field, stem + "." + AllowedTypes[k],
                    (if pdf then "application/" else "image/") + AllowedTypes[k], size);
      && FileAccepted(f)
      && UploadOptionsFor(f, folder).resourceType == (if pdf then Raw else Image)
      && UploadOptionsFor(f, folder).transformation == (if pdf then [] else [Limit(1000, 1000)])
  {
    var w := AllowedTypes[k];
    var prefix := if w == "pdf" then "application/" else "image/";
    assert prefix + w == prefix + w + "";
    AllowedAnywhere(prefix, k, "");
    assert w == "" + w + "";
    FilterIsUnanchored(stem, "", k, "", prefix + w, field, size);
    if w == "pdf" {
      assert !("image/" <= prefix + w) by { assert (prefix + w)[0] == 'a'; }
    } else {
      assert "image/" <= prefix + w;
    }
  }
}

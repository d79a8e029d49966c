/**
 * The image upload route: the multipart middleware configured for one file in
 * the field `image`, of type JPEG, PNG or GIF and at most 5 MiB, stored on
 * disk under `<timestamp>-<random><extension>`; the handler answers with the
 * public URL of the stored file.
 */
module ProductUpload {
  import opened Wrappers
  import opened Js
  import opened ProductModel

  /** The one form field the middleware accepts a file from (`upload.single('image')`). */
  const ImageField: string := "image"

  const AllowedMimeTypes: seq<string> := ["image/jpeg", "image/png", "image/gif"]

  /** `limits.fileSize`: 5 MiB. */
  const MaxFileSize: nat := 5 * 1024 * 1024

  /** `Math.round(Math.random() * 1E9)` lies between 0 and this, both included. */
  const RandomSpan: nat := 1_000_000_000

  const InvalidTypeMessage: string := "Invalid file type. Only JPEG, PNG and GIF are allowed."
  const UnexpectedFieldMessage: string := "Unexpected field"
  const FileTooLargeMessage: string := "File too large"
  const NoFileMessage: string := "No file uploaded"

  /** The `fileFilter` callback: the declared type must be one of the three image types. */
  predicate FileFilter(mimetype: string)
  {
    mimetype in AllowedMimeTypes
  }

  /** The filter takes exactly the three image types, compared as exact strings. */
  lemma FileFilterAcceptsExactly(mimetype: string)
    ensures FileFilter(mimetype) <==> mimetype == "image/jpeg" || mimetype == "image/png" || mimetype == "image/gif"
  {
  }

  /** The position of the last `c` in `s`, or -1. */
  function LastIndexOf(s: string, c: char): (i: int)
    ensures -1 <= i < |s|
    ensures i >= 0 ==> s[i] == c
    ensures forall k :: i < k < |s| ==> s[k] != c
    ensures i >= 0 ==> c !in s[i + 1..]
    ensures i == -1 ==> c !in s
    decreases |s|
  {
    if s == [] then -1
    else if s[|s| - 1] == c then |s| - 1
    else
      var i := LastIndexOf(s[..|s| - 1], c);
      assert forall k :: i < k < |s| ==> s[k] != c;
      i
  }

  /** `LastIndexOf` is pinned down by its contract: a position holding `c` with no `c` after it, or -1 when there is none. */
  lemma LastIndexOfIs(s: string, c: char, i: int)
    requires -1 <= i < |s|
    requires i >= 0 ==> s[i] == c
    requires forall k :: i < k < |s| ==> s[k] != c
    ensures LastIndexOf(s, c) == i
  {
  }

  /** `s` without its trailing slashes. */
  function TrimTrailingSlashes(s: string): (t: string)
    ensures t <= s
    ensures t == [] || t[|t| - 1] != '/'
    ensures forall k :: |t| <= k < |s| ==> s[k] == '/'
    decreases |s|
  {
    if s != [] && s[|s| - 1] == '/' then TrimTrailingSlashes(s[..|s| - 1]) else s
  }

  /** The last path component of a path without trailing slashes. */
  function BaseName(s: string): (b: string)
    ensures '/' !in b
    ensures |b| <= |s|
  {
    s[LastIndexOf(s, '/') + 1..]
  }

  /**
   * The extension of a last path component: from its last dot to its end,
   * except that a component without a dot, one whose only dot leads it, and
   * `..` have none.
   */
  function ExtOfBase(b: string): (ext: string)
    ensures ext == "" || (ext[0] == '.' && '.' !in ext[1..])
    ensures '/' !in b ==> '/' !in ext
  {
    var d := LastIndexOf(b, '.');
    if d <= 0 || b == ".." then "" else b[d..]
  }

  /** `path.extname(p)` on POSIX paths. */
  function ExtName(p: string): (ext: string)
    ensures ext == "" || (ext[0] == '.' && '.' !in ext[1..])
    ensures '/' !in ext
  {
    ExtOfBase(BaseName(TrimTrailingSlashes(p)))
  }

  /** A name with no slash is its own last path component. */
  lemma BaseNameOfPlain(s: string)
    requires '/' !in s
    ensures TrimTrailingSlashes(s) == s
    ensures BaseName(s) == s
  {
    assert s == [] || s[|s| - 1] != '/';
    assert forall k :: 0 <= k < |s| ==> s[k] != '/';
    LastIndexOfIs(s, '/', -1);
  }

  /** In a slash-free name whose last dot is at `d > 0`, the extension starts at that dot. */
  lemma ExtNameAtLastDot(s: string, d: nat)
    requires '/' !in s && 0 < d < |s| && s[d] == '.' && s != ".."
    requires forall k :: d < k < |s| ==> s[k] != '.'
    ensures ExtName(s) == s[d..]
  {
    BaseNameOfPlain(s);
    LastIndexOfIs(s, '.', d);
  }

  /** A slash-free name whose only dot leads it has no extension. */
  lemma ExtNameOfLeadingDot(s: string)
    requires '/' !in s && s != [] && s[0] == '.'
    requires forall k :: 0 < k < |s| ==> s[k] != '.'
    ensures ExtName(s) == ""
  {
    BaseNameOfPlain(s);
    LastIndexOfIs(s, '.', 0);
  }

  /** The extension runs from the last dot on. */
  lemma ExtNameOfPlainName(name: string)
    requires name == "photo.tar.gz"
    ensures ExtName(name) == ".gz"
  {
    assert name[9] == '.' && name[9..] == ".gz";
    ExtNameAtLastDot(name, 9);
  }

  /** A leading dot alone does not start an extension. */
  lemma ExtNameOfDotFile()
    ensures ExtName(".bashrc") == ""
  {
    ExtNameOfLeadingDot(".bashrc");
  }

  /** The name the disk storage gives an uploaded file. */
  function StoredName(now: nat, random: nat, originalname: string): (name: string)
    requires random <= RandomSpan
    ensures '/' !in name
    ensures |name| >= 3
  {
    NumberToString(now) + "-" + NumberToString(random) + ExtName(originalname)
  }

  /** Digits contain neither a dot, a slash nor a dash. */
  lemma DigitsArePlain(n: nat)
    ensures '.' !in NumberToString(n) && '/' !in NumberToString(n) && '-' !in NumberToString(n)
  {
    var s := NumberToString(n);
    assert forall i :: 0 <= i < |s| ==> IsDigit(s[i]);
  }

  /** The stored file keeps the extension of the file the client sent. */
  lemma ExtNameOfStoredName(now: nat, random: nat, originalname: string)
    requires random <= RandomSpan
    ensures ExtName(StoredName(now, random, originalname)) == ExtName(originalname)
  {
    var prefix := NumberToString(now) + "-" + NumberToString(random);
    DigitsArePlain(now);
    DigitsArePlain(random);
    assert prefix[0] == NumberToString(now)[0];
    ExtNameAfterPlainPrefix(prefix, ExtName(originalname));
  }

  /**
   * A name made of a plain prefix (no dot, no slash, not starting with a dot)
   * and an extension has that extension.
   */
  lemma ExtNameAfterPlainPrefix(prefix: string, ext: string)
    requires prefix != [] && '.' !in prefix && '/' !in prefix
    requires ext == "" || (ext[0] == '.' && '.' !in ext[1..])
    requires '/' !in ext
    ensures ExtName(prefix + ext) == ext
  {
    var name := prefix + ext;
    assert forall k :: 0 <= k < |name| ==> name[k] != '/';
    if ext == "" {
      assert name == prefix;
      BaseNameOfPlain(name);
      assert forall k :: 0 <= k < |name| ==> name[k] != '.';
      LastIndexOfIs(name, '.', -1);
    } else {
      var d := |prefix|;
      assert name[d] == '.' && name[0] == prefix[0];
      assert forall k :: d < k < |name| ==> name[k] == ext[1..][k - d - 1];
      ExtNameAtLastDot(name, d);
      assert name[d..] == ext;
    }
  }

  /** Two uploads at different times, or with different random parts, are stored under different names. */
  lemma StoredNamesDistinct(now1: nat, random1: nat, orig1: string, now2: nat, random2: nat, orig2: string)
    requires random1 <= RandomSpan && random2 <= RandomSpan
    requires StoredName(now1, random1, orig1) == StoredName(now2, random2, orig2)
    ensures now1 == now2 && random1 == random2
  {
    var a1, b1, e1 := NumberToString(now1), NumberToString(random1), ExtName(orig1);
    var a2, b2, e2 := NumberToString(now2), NumberToString(random2), ExtName(orig2);
    DigitsArePlain(now1);
    DigitsArePlain(now2);
    DigitsArePlain(random1);
    DigitsArePlain(random2);
    NameParts(a1, b1, e1, a2, b2, e2);
    NumberToStringInjective(now1, now2);
    NumberToStringInjective(random1, random2);
  }

  /**
   * A name `a-b<ext>` with dash- and dot-free `a` and `b`, and an extension
   * that is empty or starts with a dot, determines `a` and `b`.
   */
  lemma NameParts(a1: string, b1: string, e1: string, a2: string, b2: string, e2: string)
    requires '-' !in a1 && '-' !in a2 && '.' !in b1 && '.' !in b2
    requires e1 == [] || e1[0] == '.'
    requires e2 == [] || e2[0] == '.'
    requires a1 + "-" + b1 + e1 == a2 + "-" + b2 + e2
    ensures a1 == a2 && b1 == b2
  {
    var r1, r2 := "-" + (b1 + e1), "-" + (b2 + e2);
    assert a1 + r1 == a1 + "-" + b1 + e1;
    assert a2 + r2 == a2 + "-" + b2 + e2;
    // The first dash ends the time stamp ...
    SplitAtMark(a1, r1, a2, r2, '-');
    assert b1 + e1 == r1[1..] == r2[1..] == b2 + e2;
    // ... and the random part ends at the extension's dot, or at the end.
    SplitAtMark(b1, e1, b2, e2, '.');
  }

  /** Cutting at the first `mark` takes apart two equal strings built from mark-free heads the same way. */
  lemma SplitAtMark(x1: string, u1: string, x2: string, u2: string, mark: char)
    requires x1 + u1 == x2 + u2
    requires mark !in x1 && mark !in x2
    requires u1 == [] || u1[0] == mark
    requires u2 == [] || u2[0] == mark
    ensures x1 == x2 && u1 == u2
  {
    PrefixBeforeMark(x1, u1, mark);
    PrefixBeforeMark(x2, u2, mark);
    assert u1 == (x1 + u1)[|x1|..];
    assert u2 == (x2 + u2)[|x2|..];
  }

  /** The position of the first `c` in `s`, or `|s|`. */
  function IndexOf(s: string, c: char): (i: nat)
    ensures i <= |s|
    ensures c !in s[..i]
    ensures i < |s| ==> s[i] == c
    decreases |s|
  {
    if s == [] || s[0] == c then 0
    else
      var i := IndexOf(s[1..], c);
      assert s[..i + 1] == [s[0]] + s[1..][..i];
      i + 1
  }

  /** The text before the first `mark` of `x + u` is `x`, when `x` has no `mark` and `u` is empty or starts with one. */
  lemma PrefixBeforeMark(x: string, u: string, mark: char)
    requires mark !in x
    requires u == [] || u[0] == mark
    ensures (x + u)[..IndexOf(x + u, mark)] == x
  {
    var s := x + u;
    var i := IndexOf(s, mark);
    assert s[..|x|] == x;
    assert forall k :: 0 <= k < |x| ==> s[k] == x[k];
    assert i <= |x| by {
      assert |x| < |s| ==> s[|x|] == mark;
    }
    assert i >= |x| by {
      assert forall k :: 0 <= k < |x| ==> s[k] != mark;
    }
  }

  /** `${host}` in a template literal: a missing `Host` header renders as `undefined`. */
  function HostText(host: Option<string>): string
  {
    if host.Some? then host.value else "undefined"
  }

  /** The directory the disk storage writes uploaded files to, relative to the server's working directory. */
  const UploadDir: string := "uploads"

  /** Where an uploaded file lands on disk: the stored name inside the upload directory. */
  function StoredPath(filename: string): string
  {
    UploadDir + "/" + filename
  }

  /** `${protocol}://${host}/uploads/${filename}`. */
  function ImageUrl(protocol: string, host: Option<string>, filename: string): (url: string)
    ensures |url| == |protocol| + 3 + |HostText(host)| + 9 + |filename|
    ensures url[..|protocol| + 3] == protocol + "://"
    ensures url[|url| - |filename|..] == filename
  {
    protocol + "://" + HostText(host) + "/" + UploadDir + "/" + filename
  }

  /** The URL's path, after the host, is the stored file's path on disk: the two directories are the same. */
  lemma ImageUrlPathIsStoredPath(protocol: string, host: Option<string>, filename: string)
    ensures var url := ImageUrl(protocol, host, filename);
      url[|protocol| + 3 + |HostText(host)|..] == "/" + StoredPath(filename)
  {
  }

  /** The last path component of the URL is the stored file's name, so the URL names that file. */
  lemma ImageUrlNamesStoredFile(protocol: string, host: Option<string>, filename: string)
    requires '/' !in filename
    ensures BaseName(ImageUrl(protocol, host, filename)) == filename
  {
    var head := protocol + "://" + HostText(host) + "/" + UploadDir;
    var url := ImageUrl(protocol, host, filename);
    assert url == head + "/" + filename;
    assert url[|head|] == '/';
    assert url[|head| + 1..] == filename;
    assert forall k :: |head| < k < |url| ==> url[k] == filename[k - |head| - 1];
    LastIndexOfIs(url, '/', |head|);
  }

  /** One file part of the multipart body, as the middleware reports it. */
  datatype FilePart = FilePart(fieldname: string, originalname: string, mimetype: string, size: nat)

  /**
   * A part sent with an empty file name (a form submitted with no file
   * chosen) is skipped by the middleware as if no file had been sent.
   */
  predicate Skipped(part: FilePart)
  {
    part.originalname == ""
  }

  /** Whether the middleware keeps `part` as `req.file`. */
  predicate Accepted(part: FilePart)
  {
    !Skipped(part) && part.fieldname == ImageField && FileFilter(part.mimetype) && part.size <= MaxFileSize
  }

  /**
   * `POST /upload-image` after the token check: the middleware skips a part
   * without a file name, and refuses a file in another field, of another type
   * or too large, in that order, by passing an error on; without a file the
   * handler answers 400; otherwise it answers with the URL of the stored file.
   */
  function UploadImage(part: Option<FilePart>, protocol: string, host: Option<string>, now: nat, random: nat)
    : (reply: Reply)
    requires random <= RandomSpan
    ensures part.None? || Skipped(part.value) ==> reply == ErrorReply(400, NoFileMessage)
    ensures reply.ImageReply? <==> part.Some? && Accepted(part.value)
    ensures reply.ImageReply? ==>
      && reply.status == 200
      && reply.imageUrl == ImageUrl(protocol, host, StoredName(now, random, part.value.originalname))
    ensures reply.Forwarded? <==> part.Some? && !Skipped(part.value) && !Accepted(part.value)
    ensures part.Some? && !Skipped(part.value) && part.value.fieldname != ImageField ==>
      reply == Forwarded(UnexpectedFieldMessage)
    ensures part.Some? && !Skipped(part.value) && part.value.fieldname == ImageField && !FileFilter(part.value.mimetype) ==>
      reply == Forwarded(InvalidTypeMessage)
  {
    if part.None? || Skipped(part.value) then ErrorReply(400, NoFileMessage)
    else
      var file := part.value;
      if file.fieldname != ImageField then Forwarded(UnexpectedFieldMessage)
      else if !FileFilter(file.mimetype) then Forwarded(InvalidTypeMessage)
      else if file.size > MaxFileSize then Forwarded(FileTooLargeMessage)
      else ImageReply(200, ImageUrl(protocol, host, StoredName(now, random, file.originalname)))
  }

  /** An accepted upload's URL ends in a file name that keeps the original extension. */
  lemma UploadKeepsExtension(part: FilePart, protocol: string, host: Option<string>, now: nat, random: nat)
    requires random <= RandomSpan && Accepted(part)
    ensures var reply := UploadImage(Some(part), protocol, host, now, random);
      && reply.ImageReply?
      && ExtName(BaseName(reply.imageUrl)) == ExtName(part.originalname)
  {
    var name := StoredName(now, random, part.originalname);
    ImageUrlNamesStoredFile(protocol, host, name);
    ExtNameOfStoredName(now, random, part.originalname);
    BaseNameOfPlain(name);
  }
}

/**
 * The `/upload` route: reject a request without a file or with a file that
 * is neither an image nor a video, otherwise name the stored file after a
 * generated id and the original extension and answer with its public URL.
 */
module Upload {
  import opened Common

  predicate IsAsciiLetter(c: char) {
    'a' <= c <= 'z' || 'A' <= c <= 'Z'
  }

  /** Number of consecutive ASCII letters in `s` from position `i` on (the greedy `[a-zA-Z]*`). */
  function LetterRun(s: string, i: nat): (n: nat)
    requires i <= |s|
    ensures i + n <= |s|
    ensures forall j | i <= j < i + n :: IsAsciiLetter(s[j])
    ensures i + n < |s| ==> !IsAsciiLetter(s[i + n])
    decreases |s| - i
  {
    if i < |s| && IsAsciiLetter(s[i]) then 1 + LetterRun(s, i + 1) else 0
  }

  const ImagePrefix: string := "image/"
  const VideoPrefix: string := "video/"

  /**
   * The mime-type test `^(image|video)\/[a-zA-Z]+`: anchored at the start
   * only, case-sensitive. Accepted exactly when the text starts with
   * "image/" or "video/" followed by at least one ASCII letter.
   */
  function IsValidFileFormat(mimetype: string): (ok: bool)
    ensures ok <==>
      |mimetype| > 6 &&
      (mimetype[..6] == ImagePrefix || mimetype[..6] == VideoPrefix) &&
      IsAsciiLetter(mimetype[6])
  {
    |mimetype| >= 6 &&
    (mimetype[..6] == ImagePrefix || mimetype[..6] == VideoPrefix) &&
    LetterRun(mimetype, 6) >= 1
  }

  /** The regular expression matches the prefix `m[..k]`. */
  ghost predicate MatchesPrefix(m: string, k: int) {
    7 <= k <= |m| &&
    (m[..6] == ImagePrefix || m[..6] == VideoPrefix) &&
    forall j | 6 <= j < k :: IsAsciiLetter(m[j])
  }

  /** The test succeeds exactly when the expression matches some prefix of the text. */
  lemma ValidIffSomePrefixMatches(m: string)
    ensures IsValidFileFormat(m) <==> exists k :: MatchesPrefix(m, k)
  {
    if IsValidFileFormat(m) {
      assert MatchesPrefix(m, 7);
    }
  }

  /** Whatever follows a match is ignored: appending text never turns an accepted type into a rejected one. */
  lemma AcceptedIsPrefixClosed(m: string, rest: string)
    requires IsValidFileFormat(m)
    ensures IsValidFileFormat(m + rest)
  {
  }

  /** Only the first seven characters decide. */
  lemma FirstSevenDecide(m: string, n: string)
    requires |m| >= 7 && |n| >= 7 && m[..7] == n[..7]
    ensures IsValidFileFormat(m) <==> IsValidFileFormat(n)
  {
  }

  /** Types with a suffix are accepted; other top-level types, upper case and an empty subtype are not. */
  lemma MimeExamples()
    ensures IsValidFileFormat("image/svg+xml")
    ensures IsValidFileFormat("video/mp4")
    ensures IsValidFileFormat("image/png; charset=x")
    ensures !IsValidFileFormat("IMAGE/png")
    ensures !IsValidFileFormat("Image/png")
    ensures !IsValidFileFormat("audio/mpeg")
    ensures !IsValidFileFormat("image/")
    ensures !IsValidFileFormat("image/3gpp")
    ensures !IsValidFileFormat("application/json")
  {
    assert "image/svg+xml"[..6] == ImagePrefix;
    assert "video/mp4"[..6] == VideoPrefix;
    assert "image/png; charset=x"[..6] == ImagePrefix;
    assert "image/3gpp"[..6] == ImagePrefix;
    assert "IMAGE/png"[..6] != ImagePrefix by { assert "IMAGE/png"[0] != ImagePrefix[0]; }
    assert "Image/png"[..6] != ImagePrefix by { assert "Image/png"[0] != ImagePrefix[0]; }
    assert "IMAGE/png"[..6] != VideoPrefix by { assert "IMAGE/png"[0] != VideoPrefix[0]; }
    assert "Image/png"[..6] != VideoPrefix by { assert "Image/png"[0] != VideoPrefix[0]; }
    assert "audio/mpeg"[..6] != ImagePrefix by { assert "audio/mpeg"[0] != ImagePrefix[0]; }
    assert "audio/mpeg"[..6] != VideoPrefix by { assert "audio/mpeg"[0] != VideoPrefix[0]; }
    assert "application/json"[..6] != ImagePrefix by { assert "application/json"[0] != ImagePrefix[0]; }
    assert "application/json"[..6] != VideoPrefix by { assert "application/json"[0] != VideoPrefix[0]; }
  }

  // ---------------------------------------------------------------------
  // The handler

  /** The file part of a multipart request. */
  datatype FilePart = FilePart(mimetype: string, filename: string)

  /** An absolute URL split into origin (`protocol://host`) and path. */
  datatype Url = Url(origin: string, path: string)

  /**
   * Outcome of the handler. On success the reply body is only `fileUrl`;
   * `fileName` is the name the file is written under in the uploads
   * directory, kept so that the model can state it.
   */
  datatype UploadResponse =
    | BadRequest
    | Uploaded(fileName: string, fileUrl: Url)

  const UploadsPath: string := "/uploads/"

  /** Name of the stored file: the generated id, then the extension. */
  function FileName(fileId: string, extension: string): (name: string)
    ensures |name| == |fileId| + |extension|
    ensures name[..|fileId|] == fileId && name[|fileId|..] == extension
  {
    fileId + extension
  }

  /** Two ids of one length (as generated UUIDs are) never give the same file name. */
  lemma DistinctIdsDistinctNames(id1: string, id2: string, ext1: string, ext2: string)
    requires |id1| == |id2| && id1 != id2
    ensures FileName(id1, ext1) != FileName(id2, ext2)
  {
  }

  /**
   * POST /upload. `upload` is the file part, if any; `fileId` the generated
   * id; `extension` the extension of the uploaded file name; `protocol` and
   * `hostname` those of the request. No name is produced for a request that
   * is turned away.
   */
  function HandleUpload(upload: Option<FilePart>, fileId: string, extension: string,
                        protocol: string, hostname: string): (r: UploadResponse)
    ensures upload.None? ==> r == BadRequest
    ensures r.Uploaded? <==> upload.Some? && IsValidFileFormat(upload.value.mimetype)
    ensures r.Uploaded? ==>
      |r.fileName| == |fileId| + |extension| &&
      r.fileName[..|fileId|] == fileId && r.fileName[|fileId|..] == extension
    ensures r.Uploaded? ==>
      |r.fileUrl.path| == |UploadsPath| + |r.fileName| &&
      r.fileUrl.path[..|UploadsPath|] == UploadsPath && r.fileUrl.path[|UploadsPath|..] == r.fileName
    ensures r.Uploaded? ==> r.fileUrl.origin == protocol + "://" + hostname
  {
    if upload.None? then
      BadRequest
    else if !IsValidFileFormat(upload.value.mimetype) then
      BadRequest
    else
      var fileName := FileName(fileId, extension);
      Uploaded(fileName, Url(protocol + "://" + hostname, UploadsPath + fileName))
  }
}

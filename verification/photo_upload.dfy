/** The pure parts of the upload utilities: the image-type filter, the
    stored file names of profile and post uploads, the renaming of
    placeholder post uploads, and backslash normalisation of paths. */
module PhotoUpload {
  import opened Wrappers
  import opened JsStrings

  /** The alternatives of the filter's regular expression `/jpeg|jpg|png|gif|webp/`. */
  const AllowedTypes: seq<string> := ["jpeg", "jpg", "png", "gif", "webp"]
  const FileTypeNotAllowed := "File type not allowed"
  /** The route id a post upload is named with before the post exists. */
  const NewPostPlaceholder := "new"

  // ---------------------------------------------------------------------
  // normalizeFilePath

  /** `filePath.replace(/\\/g, '/')`. */
  function NormalizeFilePath(path: string): (r: string)
    ensures |r| == |path|
    ensures '\\' !in r
    ensures forall i :: 0 <= i < |path| && path[i] != '\\' ==> r[i] == path[i]
    ensures forall i :: 0 <= i < |path| && path[i] == '\\' ==> r[i] == '/'
  {
    seq(|path|, i requires 0 <= i < |path| => if path[i] == '\\' then '/' else path[i])
  }

  lemma NormalizeIdempotent(path: string)
    ensures NormalizeFilePath(NormalizeFilePath(path)) == NormalizeFilePath(path)
  {
    var once := NormalizeFilePath(path);
    NormalizeFixesClean(once);
  }

  /** A path with no backslash is already normal. */
  lemma NormalizeFixesClean(path: string)
    requires '\\' !in path
    ensures NormalizeFilePath(path) == path
  {
    var r := NormalizeFilePath(path);
    assert forall i :: 0 <= i < |path| ==> r[i] == path[i];
  }

  lemma NormalizeConcat(a: string, b: string)
    ensures NormalizeFilePath(a + b) == NormalizeFilePath(a) + NormalizeFilePath(b)
  {
    var l, r := NormalizeFilePath(a + b), NormalizeFilePath(a) + NormalizeFilePath(b);
    assert forall i :: 0 <= i < |a| ==> (a + b)[i] == a[i] && r[i] == NormalizeFilePath(a)[i];
    assert forall i :: |a| <= i < |a + b| ==> (a + b)[i] == b[i - |a|] && r[i] == NormalizeFilePath(b)[i - |a|];
  }

  // ---------------------------------------------------------------------
  // POSIX path helpers

  /** The index of the last `c` in `s`. */
  function LastIndexOf(s: string, c: char): (r: Option<nat>)
    ensures r.Some? ==> r.value < |s| && s[r.value] == c
    ensures r.Some? ==> forall j :: r.value < j < |s| ==> s[j] != c
    ensures r.None? <==> c !in s
    decreases |s|
  {
    if |s| == 0 then None
    else if s[|s| - 1] == c then Some(|s| - 1)
    else
      var front := s[..|s| - 1];
      assert s == front + [s[|s| - 1]];
      LastIndexOf(front, c)
  }

  lemma LastIndexOfIs(s: string, c: char, k: nat)
    requires k < |s| && s[k] == c
    requires forall j :: k < j < |s| ==> s[j] != c
    ensures LastIndexOf(s, c) == Some(k)
  {
    assert c in s;
  }

  /** `path` with its trailing `/` characters removed. */
  function TrimTrailingSlashes(path: string): (r: string)
    ensures |r| <= |path|
    ensures r == path[..|r|]
    ensures r == "" || r[|r| - 1] != '/'
    ensures forall j :: |r| <= j < |path| ==> path[j] == '/'
    decreases |path|
  {
    if |path| > 0 && path[|path| - 1] == '/' then TrimTrailingSlashes(path[..|path| - 1]) else path
  }

  /** `path.basename(p)`: the last segment, trailing slashes ignored. */
  function BaseName(path: string): (b: string)
    ensures var p := TrimTrailingSlashes(path);
      && |b| <= |p|
      && (forall i :: 0 <= i < |b| ==> b[i] == p[|p| - |b| + i])
      && '/' !in b
      && (|b| < |p| ==> p[|p| - |b| - 1] == '/')
  {
    var p := TrimTrailingSlashes(path);
    match LastIndexOf(p, '/')
    case None => p
    case Some(k) =>
      var tail := p[k + 1..];
      assert forall j :: 0 <= j < |tail| ==> tail[j] == p[k + 1 + j];
      tail
  }

  /** `path.extname(p)`: from the last `.` of the base name to its end; empty
      when the base name has no `.`, starts with its only `.` (as `.png`
      does), or is `..`. */
  function ExtName(path: string): (ext: string)
    ensures ext == "" || (ext[0] == '.' && '/' !in ext)
    ensures ext == "" || |ext| < |BaseName(path)|
    ensures ext == BaseName(path)[|BaseName(path)| - |ext|..]
    ensures '.' !in BaseName(path) ==> ext == ""
    ensures ext != "" ==> '.' !in ext[1..]
  {
    ExtensionOfBase(BaseName(path))
  }

  /** The extension part of a base name `base`, which holds no `/`. */
  function ExtensionOfBase(base: string): (ext: string)
    requires '/' !in base
    ensures ext == "" || (ext[0] == '.' && '/' !in ext)
    ensures ext == "" || |ext| < |base|
    ensures ext == base[|base| - |ext|..]
    ensures '.' !in base ==> ext == ""
    ensures ext != "" ==> '.' !in ext[1..]
  {
    match LastIndexOf(base, '.')
    case None => ""
    case Some(k) =>
      if k == 0 || base == ".." then ""
      else
        var ext := base[k..];
        assert forall j :: 0 <= j < |ext| ==> ext[j] == base[k + j];
        assert ext[0] == '.' && '/' !in ext;
        assert '.' !in ext[1..] by {
          assert forall j :: 0 <= j < |ext| - 1 ==> ext[1..][j] == base[k + 1 + j];
        }
        ext
  }

  /** The extension is empty exactly when the base name is `..` or has no
      `.` after its first character. */
  lemma ExtNameEmptyIff(path: string)
    ensures ExtName(path) == "" <==>
      var base := BaseName(path);
      base == ".." || forall k :: 0 < k < |base| ==> base[k] != '.'
  {
  }

  // ---------------------------------------------------------------------
  // imageFilter

  /** The filter's regular expression matches somewhere in `s`. */
  predicate MatchesAllowedType(s: string) {
    exists k :: 0 <= k < |AllowedTypes| && Includes(s, AllowedTypes[k])
  }

  datatype FilterResult = Accept | Reject(message: string)

  /** `imageFilter`: accept when the lower-cased extension and the mimetype,
      which is not lower-cased, both match one of the allowed types. */
  function ImageFilter(originalname: string, mimetype: string): (r: FilterResult)
    ensures r.Reject? ==> r.message == FileTypeNotAllowed
    ensures r.Accept? ==> ExtName(originalname) != ""
  {
    EmptyMatchesNothing();
    if MatchesAllowedType(ToLower(ExtName(originalname))) && MatchesAllowedType(mimetype) then Accept
    else Reject(FileTypeNotAllowed)
  }

  /** No allowed type occurs in the empty string. */
  lemma EmptyMatchesNothing()
    ensures !MatchesAllowedType("")
  {
    forall k | 0 <= k < |AllowedTypes| ensures !Includes("", AllowedTypes[k]) {
      assert IndexOf("", AllowedTypes[k]).None?;
    }
  }

  /** Accepting is the conjunction of the two tests, with the extension
      compared case-insensitively and the mimetype case-sensitively. */
  lemma ImageFilterIff(originalname: string, mimetype: string)
    ensures ImageFilter(originalname, mimetype).Accept? <==>
      && (exists k :: 0 <= k < |AllowedTypes| && Includes(ToLower(ExtName(originalname)), AllowedTypes[k]))
      && (exists k :: 0 <= k < |AllowedTypes| && Includes(mimetype, AllowedTypes[k]))
  {
  }

  /** A non-empty name without `/` is its own base name. */
  lemma BaseNameOfSegment(name: string)
    requires name != "" && '/' !in name
    ensures BaseName(name) == name
  {
    assert TrimTrailingSlashes(name) == name by {
      assert name[|name| - 1] != '/';
    }
    assert LastIndexOf(name, '/').None?;
  }

  /** The extension of `stem.ext` is `.ext` when neither part has a `.` or
      a `/` and the stem is not empty. */
  lemma ExtNameOfSimpleName(stem: string, ext: string)
    requires stem != ""
    requires '.' !in stem && '/' !in stem && '.' !in ext && '/' !in ext
    ensures ExtName(stem + "." + ext) == "." + ext
  {
    var name := stem + "." + ext;
    assert '/' !in name by {
      assert forall j :: 0 <= j < |stem| ==> name[j] == stem[j];
      assert forall j :: |stem| < j < |name| ==> name[j] == ext[j - |stem| - 1];
    }
    BaseNameOfSegment(name);
    ExtensionOfSimpleBase(stem, ext);
  }

  lemma ExtensionOfSimpleBase(stem: string, ext: string)
    requires stem != ""
    requires '.' !in stem && '/' !in stem + "." + ext && '.' !in ext
    ensures ExtensionOfBase(stem + "." + ext) == "." + ext
  {
    var name := stem + "." + ext;
    assert name[|stem|] == '.';
    assert forall j :: |stem| < j < |name| ==> name[j] == ext[j - |stem| - 1];
    LastIndexOfIs(name, '.', |stem|);
    assert name[|stem|..] == "." + ext;
    assert name != ".." by { assert name[0] == stem[0]; }
  }

  /** A dot-file name such as `.png` has no extension, so the filter rejects
      it whatever its mimetype. */
  lemma DotFileRejected(rest: string, mimetype: string)
    requires '.' !in rest && '/' !in rest
    ensures ExtName("." + rest) == ""
    ensures ImageFilter("." + rest, mimetype) == Reject(FileTypeNotAllowed)
  {
    var name := "." + rest;
    assert forall j :: 0 < j < |name| ==> name[j] == rest[j - 1];
    BaseNameOfSegment(name);
    LastIndexOfIs(name, '.', 0);
    EmptyMatchesNothing();
  }

  /** The extension is compared case-insensitively: only its lower-cased
      form matters. */
  lemma ExtensionCaseIgnored(name1: string, name2: string, mimetype: string)
    requires ToLower(ExtName(name1)) == ToLower(ExtName(name2))
    ensures ImageFilter(name1, mimetype) == ImageFilter(name2, mimetype)
  {
  }

  /** The mimetype is compared case-sensitively: `image/png` passes the
      mimetype test and `image/PNG` does not. */
  lemma MimetypeCaseMatters()
    ensures MatchesAllowedType("image/png")
    ensures !MatchesAllowedType("image/PNG")
  {
    assert OccursAt("image/png", "png", 6);
    assert Includes("image/png", AllowedTypes[2]);
    forall k | 0 <= k < |AllowedTypes|
      ensures !Includes("image/PNG", AllowedTypes[k])
    {
      UpperPngLacks(AllowedTypes[k]);
    }
  }

  lemma UpperPngLacks(pat: string)
    requires pat in AllowedTypes
    ensures !Includes("image/PNG", pat)
  {
    var s := "image/PNG";
    assert |pat| >= 3 && pat[0] in "jpgw" && (pat[0] == 'g' ==> pat[1] == 'i');
    forall j: nat | j + |pat| <= |s| ensures !OccursAt(s, pat, j) {
      var w := s[j..j + |pat|];
      assert w[0] == s[j] && w[1] == s[j + 1];
    }
    assert IndexOf(s, pat).None?;
  }

  // ---------------------------------------------------------------------
  // storage file names

  /** The profile storage's file name `${req.userId}-${originalname}`; an
      absent id renders as `undefined`. */
  function ProfileFileName(userId: Option<string>, originalname: string): (name: string)
    ensures userId.Some? ==> name == userId.value + "-" + originalname
    ensures userId.None? ==> name == "undefined-" + originalname
  {
    userId.GetOr("undefined") + "-" + originalname
  }

  /** The name the profile storage gives a picture uploaded on behalf of
      `owner`, as written. The storage reads `req.userId`, which nothing
      assigns: the auth middleware sets `req.user`, and the register route
      runs the upload before any user exists. So the id is always undefined. */
  function ProfileUploadName(owner: Option<string>, originalname: string): (name: string)
    ensures name == ProfileFileName(None, originalname)
  {
    var readUserId: Option<string> := None;
    ProfileFileName(readUserId, originalname)
  }

  /** As written, two owners uploading the same file name get the same
      stored name, so the later upload overwrites the earlier one. */
  lemma ProfileUploadsCollide(owner1: Option<string>, owner2: Option<string>, originalname: string)
    ensures ProfileUploadName(owner1, originalname) == ProfileUploadName(owner2, originalname)
    ensures ProfileUploadName(owner1, originalname) == "undefined-" + originalname
  {
  }

  /** The name as evidently intended: the template filled with the owning
      user's id. */
  function ProfileUploadNameIntended(owner: string, originalname: string): (name: string)
    ensures name == ProfileFileName(Some(owner), originalname)
  {
    owner + "-" + originalname
  }

  /** Intended profile names do not collide: for ids without `-` (an
      ObjectId's hex string has none), the stored name determines both the
      owner and the uploaded name. */
  lemma ProfileFileNameInjective(a: string, n1: string, b: string, n2: string)
    requires '-' !in a && '-' !in b
    requires ProfileUploadNameIntended(a, n1) == ProfileUploadNameIntended(b, n2)
    ensures a == b && n1 == n2
  {
    var s := ProfileUploadNameIntended(a, n1);
    FirstDashEndsId(a, n1);
    FirstDashEndsId(b, n2);
    assert a == s[..|a|] == b;
    assert n1 == s[|a| + 1..] == n2;
  }

  /** The first `-` of a profile file name is the one right after the id. */
  lemma FirstDashEndsId(id: string, name: string)
    requires '-' !in id
    ensures IndexOf(id + "-" + name, "-") == Some(|id|)
  {
    var s := id + "-" + name;
    assert OccursAt(s, "-", |id|) by {
      assert s[|id|..|id| + 1] == "-";
    }
    forall j: nat | j < |id|
      ensures !OccursAt(s, "-", j)
    {
      assert s[j..j + 1][0] == id[j];
    }
  }

  /** The post storage's file name `${id}-${originalname}`, where `id` is the
      route id, or `new` when there is none (or it is empty). */
  function PostFileName(routeId: Option<string>, originalname: string): (name: string)
    ensures Truthy(routeId) ==> name == routeId.value + "-" + originalname
    ensures !Truthy(routeId) ==> name == NewPostPlaceholder + "-" + originalname
  {
    (if Truthy(routeId) then routeId.value else NewPostPlaceholder) + "-" + originalname
  }

  // ---------------------------------------------------------------------
  // renamePostFiles

  /** One element of `renamePostFiles`: replace the first `new` in the base
      name by the post id, rejoin with the directory, normalise. */
  function RenamePath(oldPath: string, postId: string): (r: string)
    ensures '\\' !in r
    ensures '/' !in oldPath ==> r == NormalizeFilePath(ReplaceFirst(oldPath, NewPostPlaceholder, postId))
    ensures LastIndexOf(oldPath, '/').Some? ==>
      var k := LastIndexOf(oldPath, '/').value;
      && r == NormalizeFilePath(oldPath[..k]) + "/" + NormalizeFilePath(ReplaceFirst(oldPath[k + 1..], NewPostPlaceholder, postId))
      && (!Includes(oldPath[k + 1..], NewPostPlaceholder) ==> r == NormalizeFilePath(oldPath))
  {
    match LastIndexOf(oldPath, '/')
    case None => NormalizeFilePath(ReplaceFirst(oldPath, NewPostPlaceholder, postId))
    case Some(k) =>
      var dir, base := oldPath[..k], oldPath[k + 1..];
      assert oldPath == dir + "/" + base;
      RenameSplits(dir, base, postId);
      NormalizeFilePath(dir + "/" + ReplaceFirst(base, NewPostPlaceholder, postId))
  }

  /** Normalising `dir/renamed` normalises each side of the `/`. */
  lemma RenameSplits(dir: string, base: string, postId: string)
    ensures var renamed := ReplaceFirst(base, NewPostPlaceholder, postId);
      NormalizeFilePath(dir + "/" + renamed) == NormalizeFilePath(dir) + "/" + NormalizeFilePath(renamed)
    ensures !Includes(base, NewPostPlaceholder) ==>
      NormalizeFilePath(dir + "/" + ReplaceFirst(base, NewPostPlaceholder, postId)) == NormalizeFilePath(dir + "/" + base)
  {
    var renamed := ReplaceFirst(base, NewPostPlaceholder, postId);
    NormalizeConcat(dir + "/", renamed);
    NormalizeConcat(dir, "/");
    NormalizeFixesClean("/");
  }

  /** The directory part is kept: only the base name is rewritten. */
  lemma RenameKeepsDirectory(dir: string, base: string, postId: string)
    requires '/' !in base
    ensures RenamePath(dir + "/" + base, postId) ==
      NormalizeFilePath(dir) + "/" + NormalizeFilePath(ReplaceFirst(base, NewPostPlaceholder, postId))
  {
    LastSlashSplits(dir, base);
  }

  /** Splitting `dir/base` at its last `/` gives back `dir` and `base`. */
  lemma {:induction false} LastSlashSplits(dir: string, base: string)
    requires '/' !in base
    ensures LastIndexOf(dir + "/" + base, '/') == Some(|dir|)
    ensures (dir + "/" + base)[..|dir|] == dir
    ensures (dir + "/" + base)[|dir| + 1..] == base
  {
    var p := dir + "/" + base;
    assert p[|dir|] == '/';
    assert forall j :: |dir| < j < |p| ==> p[j] == base[j - |dir| - 1];
    LastIndexOfIs(p, '/', |dir|);
  }

  /** A base name without `new` comes back unchanged (up to normalisation). */
  lemma RenameWithoutPlaceholder(dir: string, base: string, postId: string)
    requires '/' !in base && '\\' !in dir + base
    requires !Includes(base, NewPostPlaceholder)
    ensures RenamePath(dir + "/" + base, postId) == dir + "/" + base
  {
    var p := dir + "/" + base;
    LastSlashSplits(dir, base);
    assert '\\' !in p by {
      assert forall i :: 0 <= i < |dir| ==> p[i] == (dir + base)[i];
      assert forall i :: |dir| < i < |p| ==> p[i] == (dir + base)[i - 1];
    }
    NormalizeFixesClean(p);
  }

  /** Renaming a placeholder upload gives exactly the name the upload would
      have had, had the post id been known: `new-X` becomes `${postId}-X`. */
  lemma RenamePlaceholderUpload(dir: string, originalname: string, postId: string)
    requires '/' !in originalname
    requires '\\' !in dir && '\\' !in originalname && '\\' !in postId
    requires postId != ""
    ensures RenamePath(dir + "/" + PostFileName(None, originalname), postId) ==
      dir + "/" + PostFileName(Some(postId), originalname)
  {
    var base := PostFileName(None, originalname);
    PlaceholderRenamed(originalname, postId);
    RenameKeepsDirectory(dir, base, postId);
    NormalizeFixesClean(dir);
    NormalizeFixesClean(postId + "-" + originalname);
  }

  lemma PlaceholderRenamed(originalname: string, postId: string)
    requires '/' !in originalname
    ensures '/' !in PostFileName(None, originalname)
    ensures ReplaceFirst(PostFileName(None, originalname), NewPostPlaceholder, postId) == postId + "-" + originalname
  {
    var base := PostFileName(None, originalname);
    assert base == NewPostPlaceholder + ("-" + originalname);
    assert StartsWith(base, NewPostPlaceholder);
    assert base[|NewPostPlaceholder|..] == "-" + originalname;
  }

  /** `renamePostFiles(oldPaths, postId)`: one renamed path per input, in order. */
  method RenamePostFiles(oldPaths: seq<string>, postId: string) returns (newPaths: seq<string>)
    ensures |newPaths| == |oldPaths|
    ensures forall i :: 0 <= i < |oldPaths| ==> newPaths[i] == RenamePath(oldPaths[i], postId)
    ensures forall i :: 0 <= i < |oldPaths| ==> '\\' !in newPaths[i]
  {
    newPaths := [];
    var n := 0;
    while n < |oldPaths|
      invariant n <= |oldPaths|
      invariant |newPaths| == n
      invariant forall i :: 0 <= i < n ==> newPaths[i] == RenamePath(oldPaths[i], postId)
    {
      newPaths := newPaths + [RenamePath(oldPaths[n], postId)];
      n := n + 1;
    }
  }
}

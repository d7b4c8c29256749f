/** The students router: the upload middleware for the photo (an image-type
    filter and a 5 MB size limit) and the table of the five routes it
    registers, with how a request is dispatched to one of them. */
module StudentRoutes {
  import opened Js
  import Storage

  // ---------------------------------------------------------------------------
  // path.extname (POSIX rules)
  // ---------------------------------------------------------------------------

  /** The path without its trailing `/`s. */
  function TrimTrailingSlashes(p: string): (r: string)
    ensures |r| <= |p| && r == p[..|r|]
    ensures r == [] || r[|r| - 1] != '/'
    ensures forall i :: |r| <= i < |p| ==> p[i] == '/'
  {
    if p == [] || p[|p| - 1] != '/' then p else TrimTrailingSlashes(p[..|p| - 1])
  }

  /** The text after the last `/`. */
  function LastSegment(p: string): (r: string)
    ensures |r| <= |p| && r == p[|p| - |r|..]
    ensures forall i :: 0 <= i < |r| ==> r[i] != '/'
  {
    if p == [] || p[|p| - 1] == '/' then [] else LastSegment(p[..|p| - 1]) + [p[|p| - 1]]
  }

  /** The position of the last `.` in `s`. */
  function LastDot(s: string): (r: Option<nat>)
    ensures r.Some? ==> r.value < |s| && s[r.value] == '.'
    ensures r.Some? ==> forall i :: r.value < i < |s| ==> s[i] != '.'
    ensures r.None? ==> forall i :: 0 <= i < |s| ==> s[i] != '.'
  {
    if s == [] then None
    else if s[|s| - 1] == '.' then Some(|s| - 1)
    else LastDot(s[..|s| - 1])
  }

  /** `path.extname(p)`: from the last `.` of the last segment to its end,
      except that a segment starting with its only dot, and the segment `..`,
      have none. */
  function Extname(p: string): (ext: string)
    ensures ext == [] || (ext[0] == '.' && forall i :: 0 < i < |ext| ==> ext[i] != '.' && ext[i] != '/')
  {
    SegmentExtension(LastSegment(TrimTrailingSlashes(p)))
  }

  /** The extension of one segment (which holds no `/`). */
  function SegmentExtension(seg: string): (ext: string)
    requires forall i :: 0 <= i < |seg| ==> seg[i] != '/'
    ensures ext == [] || (ext[0] == '.' && forall i :: 0 < i < |ext| ==> ext[i] != '.' && ext[i] != '/')
  {
    match LastDot(seg)
    case None => ""
    case Some(d) => if d == 0 || seg == ".." then "" else seg[d..]
  }

  /** For a name without `/`, as multer hands over, the segment is the
      whole name. */
  lemma {:induction false} LastSegmentOfBaseName(s: string)
    requires forall i :: 0 <= i < |s| ==> s[i] != '/'
    ensures TrimTrailingSlashes(s) == s && LastSegment(s) == s
  {
    if s != [] {
      LastSegmentOfBaseName(s[..|s| - 1]);
      assert s[..|s| - 1] + [s[|s| - 1]] == s;
    }
  }

  /** The last dot is the one with no dot after it. */
  lemma LastDotAt(s: string, d: nat)
    requires d < |s| && s[d] == '.'
    requires forall i :: d < i < |s| ==> s[i] != '.'
    ensures LastDot(s) == Some(d)
  {
  }

  /** The extension of a base name is its tail from the last dot, unless
      that dot starts the name or the name is `..`. */
  lemma ExtnameOfBaseName(s: string, d: nat)
    requires forall i :: 0 <= i < |s| ==> s[i] != '/'
    requires d < |s| && s[d] == '.'
    requires forall i :: d < i < |s| ==> s[i] != '.'
    ensures Extname(s) == (if d == 0 || s == ".." then "" else s[d..])
  {
    LastSegmentOfBaseName(s);
    LastDotAt(s, d);
  }

  lemma ExtnameKeepsCase()
    ensures Extname("photo.JPG") == ".JPG"
  {
    ExtnameOfBaseName("photo.JPG", 5);
  }

  lemma ExtnameTakesLastDot()
    ensures Extname("archive.tar.gz") == ".gz"
  {
    ExtnameOfBaseName("archive.tar.gz", 11);
  }

  lemma ExtnameOfDotFile()
    ensures Extname(".png") == ""
  {
    ExtnameOfBaseName(".png", 0);
  }

  // ---------------------------------------------------------------------------
  // The upload middleware
  // ---------------------------------------------------------------------------

  /** The alternatives of `/jpeg|jpg|png|gif|webp/`. */
  const AllowedTypes: seq<string> := ["jpeg", "jpg", "png", "gif", "webp"]

  /** `allowedTypes.test(s)`: the pattern is not anchored, so one of the
      words anywhere in `s` is enough. */
  predicate MatchesAllowedTypes(s: string)
  {
    exists k :: 0 <= k < |AllowedTypes| && Includes(s, AllowedTypes[k])
  }

  const OnlyImagesMessage: string := "Only image files are allowed!"

  /** `fileFilter`: the lower-cased extension and the mimetype, as sent, must
      both match. */
  predicate FileFilter(file: Storage.UploadedFile)
  {
    MatchesAllowedTypes(Lower(Extname(file.originalname))) && MatchesAllowedTypes(file.mimetype)
  }

  /** `5 * 1024 * 1024` bytes. */
  const MaxFileSize: nat := 5 * 1024 * 1024

  const FileTooLargeMessage: string := "File too large"

  datatype UploadCheck = Stored(file: Storage.UploadedFile) | Rejected(message: string)

  /** What the middleware makes of a file under the `image` field: the filter
      runs first, then the size limit. */
  function CheckUpload(file: Storage.UploadedFile): (r: UploadCheck)
    ensures r.Stored? <==> FileFilter(file) && file.size <= MaxFileSize
    ensures r.Stored? ==> r.file == file
    ensures !FileFilter(file) ==> r == Rejected(OnlyImagesMessage)
    ensures FileFilter(file) && file.size > MaxFileSize ==> r == Rejected(FileTooLargeMessage)
  {
    if !FileFilter(file) then Rejected(OnlyImagesMessage)
    else if file.size > MaxFileSize then Rejected(FileTooLargeMessage)
    else Stored(file)
  }

  // The extension test ignores case: Extname commutes with lower-casing,
  // because lower-casing leaves `/` and `.` where they are.

  lemma LowerPrefix(s: string, k: nat)
    requires k <= |s|
    ensures Lower(s)[..k] == Lower(s[..k])
  {
  }

  lemma {:induction false} TrimCommutesWithLower(s: string)
    ensures TrimTrailingSlashes(Lower(s)) == Lower(TrimTrailingSlashes(s))
  {
    if s != [] && s[|s| - 1] == '/' {
      LowerPrefix(s, |s| - 1);
      TrimCommutesWithLower(s[..|s| - 1]);
    }
  }

  lemma LowerAppend(a: string, b: string)
    ensures Lower(a + b) == Lower(a) + Lower(b)
  {
  }

  lemma {:induction false} LastSegmentCommutesWithLower(s: string)
    ensures LastSegment(Lower(s)) == Lower(LastSegment(s))
  {
    if s != [] {
      var n := |s|;
      var init := s[..n - 1];
      LowerPrefix(s, n - 1);
      assert Lower(s)[n - 1] == LowerChar(s[n - 1]);
      if s[n - 1] != '/' {
        LastSegmentCommutesWithLower(init);
        LowerAppend(LastSegment(init), [s[n - 1]]);
        assert Lower([s[n - 1]]) == [LowerChar(s[n - 1])];
      }
    }
  }

  lemma {:induction false} LastDotIgnoresLower(s: string)
    ensures LastDot(Lower(s)) == LastDot(s)
  {
    if s != [] {
      LowerPrefix(s, |s| - 1);
      assert Lower(s)[|s| - 1] == LowerChar(s[|s| - 1]);
      if s[|s| - 1] != '.' {
        LastDotIgnoresLower(s[..|s| - 1]);
      }
    }
  }

  lemma DotDotIgnoresLower(seg: string)
    ensures Lower(seg) == ".." <==> seg == ".."
  {
    if |seg| == 2 && Lower(seg) == ".." {
      assert LowerChar(seg[0]) == '.' && LowerChar(seg[1]) == '.';
    }
  }

  lemma LowerKeepsNoSlash(seg: string)
    requires forall i :: 0 <= i < |seg| ==> seg[i] != '/'
    ensures forall i :: 0 <= i < |Lower(seg)| ==> Lower(seg)[i] != '/'
  {
  }

  lemma LowerSuffix(s: string, d: nat)
    requires d <= |s|
    ensures Lower(s)[d..] == Lower(s[d..])
  {
  }

  lemma SegmentExtensionAt(seg: string, d: nat)
    requires forall i :: 0 <= i < |seg| ==> seg[i] != '/'
    requires LastDot(seg) == Some(d)
    ensures SegmentExtension(seg) == (if d == 0 || seg == ".." then "" else seg[d..])
  {
  }

  lemma SegmentExtensionCommutesWithLower(seg: string)
    requires forall i :: 0 <= i < |seg| ==> seg[i] != '/'
    ensures SegmentExtension(Lower(seg)) == Lower(SegmentExtension(seg))
  {
    LowerKeepsNoSlash(seg);
    LastDotIgnoresLower(seg);
    match LastDot(seg)
    case None =>
    case Some(d) =>
      DotDotIgnoresLower(seg);
      SegmentExtensionAt(seg, d);
      SegmentExtensionAt(Lower(seg), d);
      LowerSuffix(seg, d);
  }

  lemma ExtnameCommutesWithLower(name: string)
    ensures Extname(Lower(name)) == Lower(Extname(name))
  {
    var seg := LastSegment(TrimTrailingSlashes(name));
    TrimCommutesWithLower(name);
    LastSegmentCommutesWithLower(TrimTrailingSlashes(name));
    SegmentExtensionCommutesWithLower(seg);
  }

  /** Two file names that differ only in letter case pass or fail together. */
  lemma ExtensionCaseIgnored(f: Storage.UploadedFile, g: Storage.UploadedFile)
    requires Lower(f.originalname) == Lower(g.originalname) && f.mimetype == g.mimetype
    ensures FileFilter(f) <==> FileFilter(g)
  {
    ExtnameCommutesWithLower(f.originalname);
    ExtnameCommutesWithLower(g.originalname);
    LowerIdempotent(Extname(f.originalname));
    LowerIdempotent(Extname(g.originalname));
  }

  /** A text without lower-case letters contains no word starting with one. */
  lemma NoLowerCaseMatch(s: string, word: string)
    requires forall i :: 0 <= i < |s| ==> !('a' <= s[i] <= 'z')
    requires |word| > 0 && 'a' <= word[0] <= 'z'
    ensures !Includes(s, word)
  {
    IncludesIffOccurs(s, word);
    forall i | 0 <= i
      ensures !OccursAt(s, word, i)
    {
      if i + |word| <= |s| {
        assert s[i..i + |word|][0] == s[i];
      }
    }
  }

  /** Every alternative of the pattern starts with a lower-case letter. */
  lemma AllowedTypesStartLowerCase()
    ensures forall k :: 0 <= k < |AllowedTypes| ==> |AllowedTypes[k]| > 0 && 'a' <= AllowedTypes[k][0] <= 'z'
  {
  }

  /** A text without lower-case letters matches none of the alternatives. */
  lemma NoLowerCaseNoMatch(s: string)
    requires forall i :: 0 <= i < |s| ==> !('a' <= s[i] <= 'z')
    ensures !MatchesAllowedTypes(s)
  {
    AllowedTypesStartLowerCase();
    forall k | 0 <= k < |AllowedTypes|
      ensures !Includes(s, AllowedTypes[k])
    {
      NoLowerCaseMatch(s, AllowedTypes[k]);
    }
  }

  /** The mimetype is not lower-cased: one written without lower-case
      letters, such as `IMAGE/PNG`, fails whatever the file name. */
  lemma UpperCaseMimetypeFails(f: Storage.UploadedFile)
    requires forall i :: 0 <= i < |f.mimetype| ==> !('a' <= f.mimetype[i] <= 'z')
    ensures !FileFilter(f)
  {
    NoLowerCaseNoMatch(f.mimetype);
  }

  /** An occurrence at a known position. */
  lemma IncludesAt(s: string, sub: string, i: nat)
    requires i + |sub| <= |s| && s[i..i + |sub|] == sub
    ensures Includes(s, sub)
  {
    IncludesIffOccurs(s, sub);
    assert OccursAt(s, sub, i);
  }

  lemma LowerOfLowerCase(s: string)
    requires forall i :: 0 <= i < |s| ==> !('A' <= s[i] <= 'Z')
    ensures Lower(s) == s
  {
  }

  lemma ExtnameOfPngx()
    ensures Extname("x.pngx") == ".pngx"
  {
    ExtnameOfBaseName("x.pngx", 1);
  }

  /** Neither test is anchored: a file whose extension is `.pngx`, sent as
      `text/gifted` (as `x.pngx` is, by ExtnameOfPngx), passes. */
  lemma UnanchoredMatchPasses(f: Storage.UploadedFile)
    requires Extname(f.originalname) == ".pngx" && f.mimetype == "text/gifted"
    ensures FileFilter(f)
  {
    PngxExtensionMatches(Extname(f.originalname));
    GiftedMimetypeMatches();
  }

  lemma PngxExtensionMatches(ext: string)
    requires ext == ".pngx"
    ensures MatchesAllowedTypes(Lower(ext))
  {
    LowerOfLowerCase(ext);
    IncludesAt(ext, AllowedTypes[2], 1);
  }

  lemma GiftedMimetypeMatches()
    ensures MatchesAllowedTypes("text/gifted")
  {
    IncludesAt("text/gifted", AllowedTypes[3], 5);
  }

  /** A file of exactly the limit is kept, one byte more is refused. */
  lemma SizeLimitBoundary(name: string, mimetype: string)
    requires FileFilter(Storage.UploadedFile(name, mimetype, 0))
    ensures CheckUpload(Storage.UploadedFile(name, mimetype, MaxFileSize)).Stored?
    ensures CheckUpload(Storage.UploadedFile(name, mimetype, MaxFileSize + 1)) == Rejected(FileTooLargeMessage)
  {
  }

  // ---------------------------------------------------------------------------
  // The route table
  // ---------------------------------------------------------------------------

  datatype Verb = GET | POST | PATCH | DELETE

  datatype Handler = ListStudents | CreateStudent | UpdatePaymentStatus | UpdateCardStatus | DeleteStudent

  /** A path segment of a route: a literal, or the `:id` parameter. */
  datatype Segment = Lit(text: string) | IdParam

  datatype Route = Route(verb: Verb, pattern: seq<Segment>, upload: bool, handler: Handler)

  /** The routes in registration order, relative to the router's mount point. */
  const Routes: seq<Route> := [
    Route(GET, [], false, ListStudents),
    Route(POST, [], true, CreateStudent),
    Route(PATCH, [IdParam, Lit("payment")], false, UpdatePaymentStatus),
    Route(PATCH, [IdParam, Lit("card-status")], false, UpdateCardStatus),
    Route(DELETE, [IdParam], false, DeleteStudent)
  ]

  /** A request path below the mount point, split at `/` with its leading
      slash dropped (`/5/payment` is `["5", "payment"]`, a trailing slash adds
      a final `""`), fits a pattern segment by segment: literals are compared
      ignoring case, since `express.Router()` is not case-sensitive by default,
      and the parameter takes any non-empty segment. Every literal of the
      table is lower-case (RouteLiteralsAreLowerCase), so a segment fits a
      literal when its lower-case form is that literal. */
  predicate FitsExactly(pattern: seq<Segment>, path: seq<string>)
  {
    |pattern| == |path|
    && forall i :: 0 <= i < |path| ==>
      match pattern[i]
      case Lit(t) => Lower(path[i]) == t
      case IdParam => path[i] != ""
  }

  /** The router is not strict by default, so one trailing slash after a
      non-empty pattern is accepted as well. */
  predicate Fits(pattern: seq<Segment>, path: seq<string>)
  {
    FitsExactly(pattern, path)
    || (pattern != [] && path != [] && path[|path| - 1] == "" && FitsExactly(pattern, path[..|path| - 1]))
  }

  /** The `id` a fitting path binds, if the pattern has one. */
  function IdOf(pattern: seq<Segment>, path: seq<string>): Option<string>
    requires |pattern| <= |path|
  {
    if pattern != [] && pattern[0] == IdParam then Some(path[0]) else None
  }

  datatype Dispatch = Dispatch(handler: Handler, upload: bool, id: Option<string>)

  /** The first route, in registration order, whose verb and pattern fit. */
  function FirstMatch(routes: seq<Route>, verb: Verb, path: seq<string>): (r: Option<Dispatch>)
    ensures r.None? <==> forall k :: 0 <= k < |routes| ==> !(routes[k].verb == verb && Fits(routes[k].pattern, path))
  {
    if routes == [] then None
    else if routes[0].verb == verb && Fits(routes[0].pattern, path) then
      Some(Dispatch(routes[0].handler, routes[0].upload, IdOf(routes[0].pattern, path)))
    else
      FirstMatch(routes[1..], verb, path)
  }

  /** Routing a request to the router. */
  function Resolve(verb: Verb, path: seq<string>): (r: Option<Dispatch>)
  {
    FirstMatch(Routes, verb, path)
  }

  /** The five routes: each handler has exactly one, and only creation runs
      the upload middleware. */
  lemma RouteTable()
    ensures |Routes| == 5
    ensures forall i, j :: 0 <= i < j < |Routes| ==> Routes[i].handler != Routes[j].handler
    ensures forall i :: 0 <= i < |Routes| ==> (Routes[i].upload <==> Routes[i].handler == CreateStudent)
  {
  }

  /** Every literal of a pattern is free of upper-case letters, hence its own
      lower-case form (LowerOfLowerCase). */
  predicate LowerCaseLiterals(pattern: seq<Segment>)
  {
    forall i :: 0 <= i < |pattern| && pattern[i].Lit? ==>
      forall j :: 0 <= j < |pattern[i].text| ==> !('A' <= pattern[i].text[j] <= 'Z')
  }

  /** The literals of the table are lower-case, so matching the lowered
      segment against them is comparison ignoring case. */
  lemma RouteLiteralsAreLowerCase()
    ensures forall k :: 0 <= k < |Routes| ==> LowerCaseLiterals(Routes[k].pattern)
  {
  }

  /** The two collection routes. */
  lemma DispatchCollection()
    ensures Resolve(GET, []) == Some(Dispatch(ListStudents, false, None))
    ensures Resolve(POST, []) == Some(Dispatch(CreateStudent, true, None))
  {
  }

  /** Routing passes over a route whose verb or pattern does not fit. */
  lemma SkipRoute(routes: seq<Route>, k: nat, verb: Verb, path: seq<string>)
    requires k < |routes| && !(routes[k].verb == verb && Fits(routes[k].pattern, path))
    ensures FirstMatch(routes[k..], verb, path) == FirstMatch(routes[k + 1..], verb, path)
  {
    assert routes[k..][1..] == routes[k + 1..];
  }

  /** Routing stops at a route whose verb and pattern fit. */
  lemma TakeRoute(routes: seq<Route>, k: nat, verb: Verb, path: seq<string>)
    requires k < |routes| && routes[k].verb == verb && Fits(routes[k].pattern, path)
    ensures FirstMatch(routes[k..], verb, path)
         == Some(Dispatch(routes[k].handler, routes[k].upload, IdOf(routes[k].pattern, path)))
  {
    assert routes[k..][0] == routes[k];
  }

  /** A two-segment path fits `:id/<t>` when its second segment is `t` up to case. */
  lemma IdThenLiteralFits(id: string, seg: string, t: string)
    requires id != "" && Lower(seg) == t
    ensures FitsExactly([IdParam, Lit(t)], [id, seg])
  {
  }

  lemma DispatchPayment(id: string)
    requires id != ""
    ensures Resolve(PATCH, [id, "payment"]) == Some(Dispatch(UpdatePaymentStatus, false, Some(id)))
  {
    LowerOfLowerCase("payment");
    PaymentRouteIgnoresCase(id, "payment");
  }

  lemma DispatchCardStatus(id: string)
    requires id != ""
    ensures Resolve(PATCH, [id, "card-status"]) == Some(Dispatch(UpdateCardStatus, false, Some(id)))
  {
    LowerOfLowerCase("card-status");
    CardStatusRouteIgnoresCase(id, "card-status");
  }

  /** The card-status route ignores the case of its literal segment too;
      such a path never fits the payment route, whose literal is shorter. */
  lemma CardStatusRouteIgnoresCase(id: string, seg: string)
    requires id != "" && Lower(seg) == "card-status"
    ensures Resolve(PATCH, [id, seg]) == Some(Dispatch(UpdateCardStatus, false, Some(id)))
  {
    var path := [id, seg];
    assert Routes[0..] == Routes;
    SkipRoute(Routes, 0, PATCH, path);
    SkipRoute(Routes, 1, PATCH, path);
    assert !Fits(Routes[2].pattern, path) by {
      assert |Lower(seg)| != |"payment"|;
    }
    SkipRoute(Routes, 2, PATCH, path);
    IdThenLiteralFits(id, seg, "card-status");
    TakeRoute(Routes, 3, PATCH, path);
  }

  lemma DispatchDelete(id: string)
    requires id != ""
    ensures Resolve(DELETE, [id]) == Some(Dispatch(DeleteStudent, false, Some(id)))
  {
    assert Routes[0..] == Routes;
    SkipRoute(Routes, 0, DELETE, [id]);
    SkipRoute(Routes, 1, DELETE, [id]);
    SkipRoute(Routes, 2, DELETE, [id]);
    SkipRoute(Routes, 3, DELETE, [id]);
    assert FitsExactly(Routes[4].pattern, [id]);
    TakeRoute(Routes, 4, DELETE, [id]);
  }

  /** The payment route ignores the case of its literal segment, so
      `/5/PAYMENT` reaches it too. */
  lemma PaymentRouteIgnoresCase(id: string, seg: string)
    requires id != "" && Lower(seg) == "payment"
    ensures Resolve(PATCH, [id, seg]) == Some(Dispatch(UpdatePaymentStatus, false, Some(id)))
  {
    var path := [id, seg];
    assert Routes[0..] == Routes;
    SkipRoute(Routes, 0, PATCH, path);
    SkipRoute(Routes, 1, PATCH, path);
    IdThenLiteralFits(id, seg, "payment");
    TakeRoute(Routes, 2, PATCH, path);
  }

  /** The payment route accepts a trailing slash, so `/5/payment/` (the
      path `[id, seg, ""]`) reaches it too. */
  lemma PaymentRouteAcceptsTrailingSlash(id: string, seg: string)
    requires id != "" && Lower(seg) == "payment"
    ensures Resolve(PATCH, [id, seg, ""]) == Some(Dispatch(UpdatePaymentStatus, false, Some(id)))
  {
    var slashed := [id, seg, ""];
    assert Routes[0..] == Routes;
    SkipRoute(Routes, 0, PATCH, slashed);
    SkipRoute(Routes, 1, PATCH, slashed);
    IdThenLiteralFits(id, seg, "payment");
    assert slashed[..|slashed| - 1] == [id, seg];
    TakeRoute(Routes, 2, PATCH, slashed);
  }

  /** Only the list route answers a GET: any GET below the mount point,
      such as one student by id, a class list or attendance, is unrouted. */
  lemma OnlyListAnswersGet(path: seq<string>)
    requires path != []
    ensures Resolve(GET, path) == None
  {
  }
}

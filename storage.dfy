/** The photo helpers of the backend. An upload goes to the `student-photos`
    bucket under `students/<Date.now()>-<original name>` and returns the
    bucket's public URL for that path; a delete recovers the path from such a
    URL with `split('/student-photos/')`. The storage service is not
    modelled: the helpers return the call they would make, and its reply is a
    parameter. */
module Storage {
  import opened Js

  const Bucket: string := "student-photos"

  /** The separator `deleteStudentPhoto` splits on. */
  const Marker: string := "/student-photos/"

  /** The part of a public URL between the project URL and the bucket, as the
      storage client lays it out. */
  const PublicPrefix: string := "/storage/v1/object/public"

  /** The uploaded file, as multer hands it over. */
  datatype UploadedFile = UploadedFile(originalname: string, mimetype: string, size: nat)

  datatype StorageReply = StorageOk | StorageError(message: string)

  datatype StorageCall =
    | Upload(bucket: string, path: string, contentType: string, upsert: bool)
    | Remove(bucket: string, paths: seq<string>)

  // ---------------------------------------------------------------------------
  // Decimal rendering of the timestamp
  // ---------------------------------------------------------------------------

  predicate IsDigit(c: char)
  {
    '0' <= c <= '9'
  }

  function DigitChar(d: nat): (c: char)
    requires d < 10
    ensures IsDigit(c) && (c as int) - ('0' as int) == d
  {
    ['0', '1', '2', '3', '4', '5', '6', '7', '8', '9'][d]
  }

  /** `${n}` for a non-negative integer. */
  function Decimal(n: nat): (s: string)
    ensures |s| >= 1
    ensures forall i :: 0 <= i < |s| ==> IsDigit(s[i])
  {
    if n < 10 then [DigitChar(n)] else Decimal(n / 10) + [DigitChar(n % 10)]
  }

  function DigitValue(c: char): nat
    requires IsDigit(c)
  {
    (c as int) - ('0' as int)
  }

  /** Reading a run of digits back as a number. */
  function DecimalValue(s: string): nat
    requires forall i :: 0 <= i < |s| ==> IsDigit(s[i])
  {
    if s == [] then 0
    else DecimalValue(s[..|s| - 1]) * 10 + DigitValue(s[|s| - 1])
  }

  lemma {:induction false} DecimalRoundTrip(n: nat)
    ensures DecimalValue(Decimal(n)) == n
  {
    if n >= 10 {
      var s := Decimal(n);
      assert s[..|s| - 1] == Decimal(n / 10);
      DecimalRoundTrip(n / 10);
    }
  }

  // ---------------------------------------------------------------------------
  // uploadStudentPhoto
  // ---------------------------------------------------------------------------

  /** `students/${Date.now()}-${file.originalname}`. */
  function UploadPath(now: nat, originalname: string): (path: string)
    ensures StartsWith(path, "students/")
    ensures path == "students/" + Decimal(now) + "-" + originalname
    ensures path[|path| - |originalname|..] == originalname
  {
    "students/" + Decimal(now) + "-" + originalname
  }

  /** Two uploads at different instants never share a path. */
  lemma UploadPathsDistinct(now1: nat, now2: nat, name1: string, name2: string)
    requires UploadPath(now1, name1) == UploadPath(now2, name2)
    ensures now1 == now2 && name1 == name2
  {
    var d1, d2 := Decimal(now1), Decimal(now2);
    var t1, t2 := d1 + ("-" + name1), d2 + ("-" + name2);
    assert t1 == t2 by {
      UploadPathAfterFolder(now1, name1);
      UploadPathAfterFolder(now2, name2);
    }
    DashAfterDigits(d1, name1);
    DashAfterDigits(d2, name2);
    assert d1 == t1[..|d1|];
    assert d2 == t2[..|d2|];
    assert name1 == t1[|d1| + 1..];
    assert name2 == t2[|d2| + 1..];
    DecimalRoundTrip(now1);
    DecimalRoundTrip(now2);
  }

  /** After the folder come the digits, the dash and the name. */
  lemma UploadPathAfterFolder(now: nat, name: string)
    ensures UploadPath(now, name)[9..] == Decimal(now) + ("-" + name)
  {
    var d := Decimal(now);
    AppendAssoc("students/" + d, "-", name);
    AppendAssoc("students/", d, "-" + name);
  }

  /** The first `-` after a run of digits is the one that ends it. */
  lemma DashAfterDigits(d: string, rest: string)
    requires forall i :: 0 <= i < |d| ==> IsDigit(d[i])
    ensures IndexOf(d + ("-" + rest), "-") == Some(|d|)
  {
    var s := d + ("-" + rest);
    forall k | 0 <= k < |d|
      ensures !StartsWith(s[k..], "-")
    {
      assert s[k] == d[k];
      assert s[k..][..1][0] == s[k];
    }
    IndexOfSkip(s, |d|, "-");
    assert s[|d|..] == "-" + rest;
    assert StartsWith("-" + rest, "-");
  }

  /** `getPublicUrl(path)`: the project URL, the public-object prefix, the
      bucket and the path. */
  function PublicUrl(supabaseUrl: string, path: string): (url: string)
    ensures url == supabaseUrl + PublicPrefix + Marker + path
  {
    supabaseUrl + PublicPrefix + "/" + Bucket + "/" + path
  }

  datatype UploadResult = UploadResult(call: StorageCall, result: Result<string>)

  datatype Result<T> = Ok(value: T) | Failed(message: string)

  const UploadErrorPrefix: string := "Failed to upload photo: "

  /** `uploadStudentPhoto(file)`: one upload call, never overwriting, then
      either the public URL or an error carrying the service's message. */
  function UploadStudentPhoto(supabaseUrl: string, now: nat, file: UploadedFile, reply: StorageReply): (r: UploadResult)
    ensures r.call == Upload(Bucket, UploadPath(now, file.originalname), file.mimetype, false)
    ensures reply.StorageOk? ==> r.result == Ok(PublicUrl(supabaseUrl, UploadPath(now, file.originalname)))
    ensures reply.StorageError? ==> r.result == Failed(UploadErrorPrefix + reply.message)
  {
    var path := UploadPath(now, file.originalname);
    var call := Upload(Bucket, path, file.mimetype, false);
    match reply
    case StorageOk => UploadResult(call, Ok(PublicUrl(supabaseUrl, path)))
    case StorageError(msg) => UploadResult(call, Failed(UploadErrorPrefix + msg))
  }

  // ---------------------------------------------------------------------------
  // String.prototype.split with a non-empty separator
  // ---------------------------------------------------------------------------

  /** `s.split(sep)`: the pieces between successive non-overlapping
      occurrences, scanning from the left. */
  function Split(s: string, sep: string): (parts: seq<string>)
    requires |sep| > 0
    ensures |parts| >= 1
    ensures |parts| >= 2 <==> Includes(s, sep)
    decreases |s|
  {
    match IndexOf(s, sep)
    case None => [s]
    case Some(i) => [s[..i]] + Split(s[i + |sep|..], sep)
  }

  /** `parts.join(sep)`. */
  function Join(parts: seq<string>, sep: string): string
    requires |parts| >= 1
  {
    if |parts| == 1 then parts[0] else parts[0] + sep + Join(parts[1..], sep)
  }

  /** Splitting loses nothing: joining the pieces gives the string back. */
  lemma {:induction false} JoinSplit(s: string, sep: string)
    requires |sep| > 0
    ensures Join(Split(s, sep), sep) == s
    decreases |s|
  {
    match IndexOf(s, sep)
    case None =>
    case Some(i) =>
      var rest := s[i + |sep|..];
      SplitStep(s, sep, i);
      JoinCons(s[..i], Split(rest, sep), sep);
      JoinSplit(rest, sep);
      AroundOccurrence(s, sep, i);
  }

  /** One step of the split: the first piece, then the split of the rest. */
  lemma SplitStep(s: string, sep: string, i: nat)
    requires |sep| > 0 && IndexOf(s, sep) == Some(i)
    ensures Split(s, sep) == [s[..i]] + Split(s[i + |sep|..], sep)
  {
  }

  /** A string is what comes before an occurrence, the occurrence, and the rest. */
  lemma AroundOccurrence(s: string, sep: string, i: nat)
    requires i + |sep| <= |s| && s[i..i + |sep|] == sep
    ensures s == s[..i] + sep + s[i + |sep|..]
  {
    assert s[i..] == sep + s[i + |sep|..];
    AppendAssoc(s[..i], sep, s[i + |sep|..]);
  }

  lemma JoinCons(a: string, ps: seq<string>, sep: string)
    requires |ps| >= 1
    ensures Join([a] + ps, sep) == a + sep + Join(ps, sep)
  {
    assert ([a] + ps)[1..] == ps;
  }

  /** With a single occurrence, at `i`, the split has two pieces. */
  lemma SplitOnce(s: string, sep: string, i: nat, rest: string)
    requires |sep| > 0 && IndexOf(s, sep) == Some(i)
    requires s[i + |sep|..] == rest && !Includes(rest, sep)
    ensures Split(s, sep) == [s[..i], rest]
  {
    assert IndexOf(rest, sep).None?;
    assert Split(rest, sep) == [rest];
    SplitStep(s, sep, i);
  }

  /** No piece of a split holds the separator. */
  lemma {:induction false} SplitPiecesAreFree(s: string, sep: string)
    requires |sep| > 0
    ensures forall k :: 0 <= k < |Split(s, sep)| ==> !Includes(Split(s, sep)[k], sep)
    decreases |s|
  {
    match IndexOf(s, sep)
    case None =>
    case Some(i) =>
      var ps := Split(s[i + |sep|..], sep);
      SplitStep(s, sep, i);
      SplitPiecesAreFree(s[i + |sep|..], sep);
      PrefixBeforeFirstIsFree(s, sep);
      forall k | 0 <= k < |Split(s, sep)|
        ensures !Includes(Split(s, sep)[k], sep)
      {
        if k > 0 {
          assert Split(s, sep)[k] == ps[k - 1];
        }
      }
  }

  /** The text before the first occurrence holds no occurrence. */
  lemma PrefixBeforeFirstIsFree(s: string, sep: string)
    requires |sep| > 0 && IndexOf(s, sep).Some?
    ensures !Includes(s[..IndexOf(s, sep).value], sep)
  {
    var i := IndexOf(s, sep).value;
    var p := s[..i];
    IncludesIffOccurs(p, sep);
    forall k | OccursAt(p, sep, k)
      ensures false
    {
      assert s[k..][..|sep|] == p[k..k + |sep|];
      IndexOfIsFirst(s, sep, k);
    }
  }

  // ---------------------------------------------------------------------------
  // deleteStudentPhoto
  // ---------------------------------------------------------------------------

  /** The path `deleteStudentPhoto` removes: nothing for an absent or empty
      URL or one without the marker, otherwise the second piece of the split,
      that is the text between the first and the second marker. */
  function DeletePath(photoURL: Option<string>): (r: Option<string>)
    ensures r.Some? <==> photoURL.Some? && photoURL.value != "" && Includes(photoURL.value, Marker)
    ensures r.Some? ==> !Includes(r.value, Marker)
    ensures r.Some? ==> r.value == Split(photoURL.value, Marker)[1]
  {
    match photoURL
    case None => None
    case Some(url) =>
      if url == "" then None
      else
        var parts := Split(url, Marker);
        if |parts| < 2 then None
        else
          SplitPiecesAreFree(url, Marker);
          Some(parts[1])
  }

  datatype DeleteOutcome = DeleteOutcome(call: Option<StorageCall>, logged: bool)

  /** `deleteStudentPhoto(photoURL)`: at most one remove call; a service error
      is only logged, never raised. */
  function DeleteStudentPhoto(photoURL: Option<string>, reply: StorageReply): (o: DeleteOutcome)
    ensures o.call.Some? <==> DeletePath(photoURL).Some?
    ensures o.call.Some? ==> o.call.value == Remove(Bucket, [DeletePath(photoURL).value])
    ensures o.logged <==> o.call.Some? && reply.StorageError?
  {
    match DeletePath(photoURL)
    case None => DeleteOutcome(None, false)
    case Some(path) => DeleteOutcome(Some(Remove(Bucket, [path])), reply.StorageError?)
  }

  /** Which object is removed does not depend on the service's reply. */
  lemma DeleteCallIgnoresReply(photoURL: Option<string>, r1: StorageReply, r2: StorageReply)
    ensures DeleteStudentPhoto(photoURL, r1).call == DeleteStudentPhoto(photoURL, r2).call
  {
  }

  // ---------------------------------------------------------------------------
  // Upload then delete
  // ---------------------------------------------------------------------------

  /** When no occurrence starts before position `n`, the first occurrence in
      `s` is the first one in `s[n..]`, shifted by `n`. */
  lemma {:induction false} IndexOfSkip(s: string, n: nat, sub: string)
    requires n <= |s|
    requires forall k :: 0 <= k < n ==> !StartsWith(s[k..], sub)
    ensures IndexOf(s, sub) == Shift(IndexOf(s[n..], sub), n)
    decreases n
  {
    if n == 0 {
      assert s[0..] == s;
    } else {
      var t := s[1..];
      NoStartInTail(s, n, sub);
      IndexOfStep(s, sub);
      IndexOfSkip(t, n - 1, sub);
      assert t[n - 1..] == s[n..];
      ShiftTwice(IndexOf(s[n..], sub), n - 1, 1);
    }
  }

  /** Past a position where no occurrence starts, the search moves on one. */
  lemma IndexOfStep(s: string, sub: string)
    requires s != [] && !StartsWith(s, sub)
    ensures IndexOf(s, sub) == Shift(IndexOf(s[1..], sub), 1)
  {
  }

  lemma NoStartInTail(s: string, n: nat, sub: string)
    requires 0 < n <= |s|
    requires forall k :: 0 <= k < n ==> !StartsWith(s[k..], sub)
    ensures !StartsWith(s, sub)
    ensures forall k :: 0 <= k < n - 1 ==> !StartsWith(s[1..][k..], sub)
  {
    assert s[0..] == s;
    forall k | 0 <= k < n - 1
      ensures !StartsWith(s[1..][k..], sub)
    {
      assert s[1..][k..] == s[k + 1..];
    }
  }

  function Shift(r: Option<nat>, n: nat): Option<nat>
  {
    match r
    case None => None
    case Some(i) => Some(i + n)
  }

  lemma ShiftTwice(r: Option<nat>, a: nat, b: nat)
    ensures Shift(Shift(r, a), b) == Shift(r, a + b)
  {
  }

  /** A path built from a file name without `/` holds only the one `/` after
      `students`, so it holds no marker (which has two). */
  lemma PathHasNoMarker(now: nat, name: string)
    requires forall j :: 0 <= j < |name| ==> name[j] != '/'
    ensures !Includes(UploadPath(now, name), Marker)
  {
    var path := UploadPath(now, name);
    var d := Decimal(now);
    forall j | 9 <= j < |path|
      ensures path[j] != '/'
    {
      if j < 9 + |d| {
        assert path[j] == d[j - 9];
      } else if j > 9 + |d| {
        assert path[j] == name[j - 10 - |d|];
      }
    }
    IncludesIffOccurs(path, Marker);
    forall k | 0 <= k
      ensures !OccursAt(path, Marker, k)
    {
      if k + |Marker| <= |path| {
        assert path[k + 15] != Marker[15];
        assert path[k..k + |Marker|][15] != Marker[15];
      }
    }
  }

  /** In a public URL the first marker is the one before the bucket's path:
      the project URL and prefix hold none, and none can straddle into the
      marker, since the prefix ends in `c` and the marker has no `c`. */
  lemma {:induction false} FirstMarkerAfterPrefix(p: string, path: string)
    requires |p| > 0 && p[|p| - 1] == 'c'
    requires !Includes(p, Marker)
    ensures IndexOf(p + (Marker + path), Marker) == Some(|p|)
  {
    var s := p + (Marker + path);
    forall k | 0 <= k < |p|
      ensures !StartsWith(s[k..], Marker)
    {
      if k + |Marker| <= |p| {
        NoMarkerInside(p, s, k);
      } else {
        NoMarkerAcrossEnd(p, s, k);
      }
    }
    assert s[|p|..] == Marker + path;
    IndexOfSkip(s, |p|, Marker);
    assert StartsWith(Marker + path, Marker);
  }

  lemma NoMarkerInside(p: string, s: string, k: nat)
    requires !Includes(p, Marker) && k + |Marker| <= |p| <= |s| && s[..|p|] == p
    ensures !StartsWith(s[k..], Marker)
  {
    IncludesIffOccurs(p, Marker);
    assert !OccursAt(p, Marker, k);
    assert s[k..][..|Marker|] == p[k..k + |Marker|];
  }

  lemma NoMarkerAcrossEnd(p: string, s: string, k: nat)
    requires 0 < |p| && p[|p| - 1] == 'c' && |p| + |Marker| <= |s| && s[..|p|] == p
    requires k < |p| < k + |Marker|
    ensures !StartsWith(s[k..], Marker)
  {
    var j := |p| - 1 - k;
    MarkerHasNoC();
    assert s[k..][..|Marker|][j] == s[|p| - 1] == 'c';
    assert s[k..][..|Marker|][j] != Marker[j];
  }

  lemma MarkerHasNoC()
    ensures forall j :: 0 <= j < |Marker| ==> Marker[j] != 'c'
  {
  }

  /** The characters `encodeURI` leaves as they are: ASCII letters and digits
      and `-_.!~*'();/?:@&=+$,#`. On a URL made only of these, the client
      library's `encodeURI` is the identity, so `PublicUrl` is the URL it
      returns. */
  predicate UriUnescaped(c: char)
  {
    ('a' <= c <= 'z') || ('A' <= c <= 'Z') || ('0' <= c <= '9')
    || c in "-_.!~*'();/?:@&=+$,#"
  }

  /** Deleting by the URL an upload returned removes exactly the uploaded
      object. The file name carries no `/` (multer keeps only the base name of
      the client's file name), and the project URL carries no marker. Both are
      made of characters `encodeURI` keeps: a name such as `my photo.png`
      comes back as `my%20photo.png`, and the removal then misses. */
  lemma {:induction false} DeleteFindsUploadedPath(supabaseUrl: string, now: nat, name: string)
    requires forall j :: 0 <= j < |name| ==> name[j] != '/' && UriUnescaped(name[j])
    requires forall j :: 0 <= j < |supabaseUrl| ==> UriUnescaped(supabaseUrl[j])
    requires !Includes(supabaseUrl + PublicPrefix, Marker)
    ensures DeletePath(Some(PublicUrl(supabaseUrl, UploadPath(now, name)))) == Some(UploadPath(now, name))
  {
    var path := UploadPath(now, name);
    var url := PublicUrl(supabaseUrl, path);
    assert Split(url, Marker) == [supabaseUrl + PublicPrefix, path] by {
      PathHasNoMarker(now, name);
      UrlSplitsAtBucket(supabaseUrl, path);
    }
  }

  lemma AppendAssoc(a: string, b: string, c: string)
    ensures a + b + c == a + (b + c)
  {
  }

  /** A public URL splits at its marker into the part before and the path,
      when neither holds a marker. */
  lemma UrlSplitsAtBucket(supabaseUrl: string, path: string)
    requires !Includes(supabaseUrl + PublicPrefix, Marker) && !Includes(path, Marker)
    ensures Split(PublicUrl(supabaseUrl, path), Marker) == [supabaseUrl + PublicPrefix, path]
  {
    var p := supabaseUrl + PublicPrefix;
    var url := PublicUrl(supabaseUrl, path);
    AppendAssoc(p, Marker, path);
    assert p[|p| - 1] == 'c';
    FirstMarkerAfterPrefix(p, path);
    assert url[|p| + |Marker|..] == path;
    assert url[..|p|] == p;
    SplitOnce(url, Marker, |p|, path);
  }
}

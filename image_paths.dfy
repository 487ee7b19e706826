/** The string handling of the image ingestion in `addCar` and of the storage
    cleanup in `deleteCar` (actions/cars.js): data-URL checks, file extensions,
    object paths, public URLs and the folder key read back from a URL. */
module ImagePaths {
  import opened Envelope
  import opened Text

  const DataImagePrefix: string := "data:image/"
  const DefaultExtension: string := "jpeg"
  /** The route of the storage service's public object endpoint. */
  const ObjectRoute: string := "/storage/v1/object/public"
  /** The bucket's segment of a public object path. */
  const BucketSegment: string := "/car-images/"
  const CarsFolder: string := "cars/"

  /** `!base64Data || !base64Data.startsWith("data:image/")` is false: the entry
      is present, not empty, and an image data URL. */
  predicate IsValidImage(entry: Option<string>) {
    entry.Some? && entry.value != [] && StartsWith(entry.value, DataImagePrefix)
  }

  /** The longest run of ASCII letters and digits at the front of `s`. */
  function AlnumPrefix(s: string): (r: string)
    ensures |r| <= |s| && r == s[..|r|]
    ensures forall k :: 0 <= k < |r| ==> IsAsciiAlnum(r[k])
    ensures |r| < |s| ==> !IsAsciiAlnum(s[|r|])
  {
    if s != [] && IsAsciiAlnum(s[0]) then [s[0]] + AlnumPrefix(s[1..]) else []
  }

  /** The regular expression `data:image\/([a-zA-Z0-9]+);` tried at the start of
      `s`. The letter-and-digit run is greedy; a shorter run is always followed
      by another letter or digit, never by `;`, so backtracking finds nothing
      more and only the longest run can match. */
  function MimeMatchAt(s: string): (r: Option<string>)
    ensures r.Some? ==> r.value != [] && forall k :: 0 <= k < |r.value| ==> IsAsciiAlnum(r.value[k])
  {
    if StartsWith(s, DataImagePrefix) then
      var rest := s[|DataImagePrefix|..];
      var run := AlnumPrefix(rest);
      if |run| > 0 && |run| < |rest| && rest[|run|] == ';' then Some(run) else None
    else None
  }

  /** `s.match(/data:image\/([a-zA-Z0-9]+);/)`: the group of the leftmost match. */
  function MimeSubtype(s: string): (r: Option<string>)
    ensures r.Some? ==> r.value != [] && forall k :: 0 <= k < |r.value| ==> IsAsciiAlnum(r.value[k])
    decreases |s|
  {
    if s == [] then None
    else match MimeMatchAt(s)
      case Some(run) => Some(run)
      case None => MimeSubtype(s[1..])
  }

  /** `mimeMatch ? mimeMatch[1] : "jpeg"`: a non-empty run of letters and
      digits taken from the data URL, or `jpeg`. */
  function ExtensionOf(dataUrl: string): (r: string)
    ensures r == DefaultExtension || (r != [] && forall k :: 0 <= k < |r| ==> IsAsciiAlnum(r[k]))
  {
    match MimeSubtype(dataUrl)
    case Some(run) => run
    case None => DefaultExtension
  }

  /** `image-${Date.now()}-${i}.${fileExtension}`. */
  function ImageFileName(stamp: nat, index: nat, ext: string): string {
    "image-" + Decimal(stamp) + "-" + Decimal(index) + "." + ext
  }

  /** `cars/${carId}`, the folder of one car's images. */
  function FolderPath(carId: string): string {
    CarsFolder + carId
  }

  /** `${folderPath}/${fileName}`. */
  function ImagePath(carId: string, fileName: string): string {
    FolderPath(carId) + "/" + fileName
  }

  /** `path` names an object directly in `folder`, not in a sub-folder of it. */
  predicate DirectlyIn(path: string, folder: string) {
    |path| > |folder| + 1 && StartsWith(path, folder + "/") && '/' !in path[|folder| + 1..]
  }

  /** The path part of an object's public URL. */
  function PublicPathname(path: string): string {
    ObjectRoute + BucketSegment + path
  }

  /** `${NEXT_PUBLIC_SUPABASE_URL}/storage/v1/object/public/car-images/${filePath}`. */
  function PublicUrl(base: string, path: string): string {
    base + PublicPathname(path)
  }

  /** The longest run without a slash at the front of `s` (`[^/]+`, greedy). */
  function NonSlashPrefix(s: string): (r: string)
    ensures |r| <= |s| && r == s[..|r|]
    ensures '/' !in r
    ensures |r| < |s| ==> s[|r|] == '/'
  {
    if s != [] && s[0] != '/' then [s[0]] + NonSlashPrefix(s[1..]) else []
  }

  /** The regular expression `\/car-images\/(cars\/[^/]+)` tried at the start of `s`. */
  function FolderKeyAt(s: string): Option<string> {
    var marker := BucketSegment + CarsFolder;
    if StartsWith(s, marker) then
      var id := NonSlashPrefix(s[|marker|..]);
      if id != [] then Some(CarsFolder + id) else None
    else None
  }

  /** `pathname.match(/\/car-images\/(cars\/[^/]+)/)`: the group of the leftmost
      match, the folder key of the car whose image the URL names. */
  function FolderKey(pathname: string): (r: Option<string>)
    ensures r.Some? ==> StartsWith(r.value, CarsFolder) && |r.value| > |CarsFolder|
    ensures r.Some? ==> '/' !in r.value[|CarsFolder|..]
    decreases |pathname|
  {
    if pathname == [] then None
    else match FolderKeyAt(pathname)
      case Some(key) => Some(key)
      case None => FolderKey(pathname[1..])
  }

  lemma {:induction false} AlnumPrefixStopsAt(a: string, b: string)
    requires forall k :: 0 <= k < |a| ==> IsAsciiAlnum(a[k])
    requires b != [] && !IsAsciiAlnum(b[0])
    ensures AlnumPrefix(a + b) == a
  {
    if a != [] {
      assert (a + b)[1..] == a[1..] + b;
      AlnumPrefixStopsAt(a[1..], b);
    }
  }

  lemma {:induction false} NonSlashPrefixStopsAt(a: string, b: string)
    requires '/' !in a
    requires b != [] && b[0] == '/'
    ensures NonSlashPrefix(a + b) == a
  {
    if a != [] {
      assert a[0] in a;
      assert (a + b)[1..] == a[1..] + b;
      assert forall c :: c in a[1..] ==> c in a;
      NonSlashPrefixStopsAt(a[1..], b);
    }
  }

  /** An image data URL names its own extension: the subtype written between
      `data:image/` and `;`. */
  lemma ExtensionOfImageDataUrl(subtype: string, rest: string)
    requires subtype != [] && forall k :: 0 <= k < |subtype| ==> IsAsciiAlnum(subtype[k])
    ensures ExtensionOf(DataImagePrefix + subtype + ";" + rest) == subtype
  {
    var s := DataImagePrefix + subtype + ";" + rest;
    var tail := s[|DataImagePrefix|..];
    assert tail == subtype + ";" + rest;
    AlnumPrefixStopsAt(subtype, ";" + rest);
    assert tail == subtype + (";" + rest);
    assert MimeMatchAt(s) == Some(subtype);
  }

  /** The last four characters of `s` (all of it when shorter). */
  function LastFour(s: string): string {
    if |s| < 4 then s else s[|s| - 4..]
  }

  /** No match of the folder pattern can start inside a prefix that holds no
      `-` and has no slash among its last four characters (a match needs a
      slash at its start and a `-` four characters on), so the search goes
      on past it. */
  lemma {:induction false} FolderKeySkipsPrefix(pre: string, rest: string)
    requires '-' !in pre && '/' !in LastFour(pre)
    ensures FolderKey(pre + rest) == FolderKey(rest)
    decreases |pre|
  {
    if pre != [] {
      var s := pre + rest;
      assert !StartsWith(s, BucketSegment + CarsFolder) by {
        if |pre| > 4 {
          assert s[4] == pre[4] && pre[4] in pre;
        } else {
          assert s[0] == pre[0] && pre[0] in LastFour(pre);
        }
      }
      assert FolderKeyAt(s).None?;
      assert FolderKey(s) == FolderKey(s[1..]);
      var pre' := pre[1..];
      assert s[1..] == pre' + rest;
      assert forall c :: c in pre' ==> c in pre;
      if |pre| > 4 {
        assert LastFour(pre') == LastFour(pre);
      } else {
        assert forall c :: c in LastFour(pre') ==> c in pre;
      }
      FolderKeySkipsPrefix(pre', rest);
    } else {
      assert pre + rest == rest;
    }
  }

  /** The round trip between the upload path and the cleanup: the folder key
      read back from the public pathname of any object uploaded for a car is
      that car's folder `cars/<carId>`. */
  lemma FolderKeyRoundTrip(carId: string, fileName: string)
    requires carId != [] && '/' !in carId
    ensures FolderKey(PublicPathname(ImagePath(carId, fileName))) == Some(FolderPath(carId))
  {
    var marker := BucketSegment + CarsFolder;
    var tail := carId + ("/" + fileName);
    var rest := marker + tail;
    calc {
      PublicPathname(ImagePath(carId, fileName));
      ObjectRoute + BucketSegment + (CarsFolder + carId + "/" + fileName);
      { assert CarsFolder + carId + "/" + fileName == CarsFolder + tail; }
      ObjectRoute + BucketSegment + (CarsFolder + tail);
      ObjectRoute + rest;
    }
    assert '-' !in ObjectRoute && '/' !in LastFour(ObjectRoute);
    FolderKeySkipsPrefix(ObjectRoute, rest);
    assert rest[..|marker|] == marker && rest[|marker|..] == tail;
    NonSlashPrefixStopsAt(carId, "/" + fileName);
    assert FolderKeyAt(rest) == Some(CarsFolder + carId);
  }

  /** `path` names an object stored directly in the folder of car `carId`:
      `cars/<carId>/<name>` for a non-empty name without a slash. */
  ghost predicate InCarFolder(path: string, carId: string) {
    exists name :: name != [] && '/' !in name && path == ImagePath(carId, name)
  }

  /** Such an object lies directly in the car's folder, and the folder key
      read back from its public pathname is that folder. */
  lemma CarFolderObject(path: string, carId: string)
    requires carId != [] && '/' !in carId
    requires InCarFolder(path, carId)
    ensures DirectlyIn(path, FolderPath(carId))
    ensures FolderKey(PublicPathname(path)) == Some(FolderPath(carId))
  {
    var name :| name != [] && '/' !in name && path == ImagePath(carId, name);
    FolderKeyRoundTrip(carId, name);
    assert path == (FolderPath(carId) + "/") + name;
    assert path[|FolderPath(carId)| + 1..] == name;
  }

  /** The file names `addCar` builds never hold a slash, so each of its
      objects sits directly in the car's folder. */
  lemma FileNameHasNoSlash(stamp: nat, index: nat, ext: string)
    requires ext == DefaultExtension || forall k :: 0 <= k < |ext| ==> IsAsciiAlnum(ext[k])
    ensures '/' !in ImageFileName(stamp, index, ext)
  {
  }
}

/**
  S3UploadService: object keys for uploaded files, the public URL of a
  key, and reading the key back out of a URL to delete the object. The
  presigner and the S3 client are not modelled: the presigned upload URL
  is an input, and the delete is reported as the key it was issued for.
 */
module ObjectKeys {
  import opened Wrappers

  const Bucket := "helpnearby"
  /** The text that marks an S3 host of the bucket, global or regional. */
  const BucketHostMarker := Bucket + ".s3"
  const PublicUrlBase := "https://" + Bucket + ".s3.amazonaws.com/"
  const RequestsPrefix := "requests/"
  const ProfilePicturePrefix := "profile_picture/"

  datatype PresignedUpload = PresignedUpload(uploadUrl: string, publicUrl: string)

  /** The key of a request image: the fresh UUID keeps names apart. */
  function RequestImageKey(uuid: string, fileName: string): string {
    RequestsPrefix + uuid + "/" + fileName
  }

  function ProfilePictureKey(uuid: string, fileName: string): string {
    ProfilePicturePrefix + uuid + "/" + fileName
  }

  function PublicUrl(key: string): string {
    PublicUrlBase + key
  }

  predicate StartsWith(s: string, prefix: string) {
    |prefix| <= |s| && s[..|prefix|] == prefix
  }

  /** generatePresignedUrl: the presigned PUT URL comes from the presigner;
      the public URL lies under "requests/" and gives the key back unless
      the file name holds a '?'. */
  function GeneratePresignedUrl(uuid: string, fileName: string, presignedUrl: string): (r: PresignedUpload)
    ensures r.uploadUrl == presignedUrl
    ensures StartsWith(r.publicUrl, PublicUrlBase + RequestsPrefix)
    ensures r.publicUrl == PublicUrl(RequestImageKey(uuid, fileName))
  {
    var key := RequestImageKey(uuid, fileName);
    assert PublicUrl(key) == (PublicUrlBase + RequestsPrefix) + (uuid + "/" + fileName);
    PresignedUpload(presignedUrl, PublicUrl(key))
  }

  /** generatePresignedUrlProfilePicture: the same under "profile_picture/". */
  function GeneratePresignedUrlProfilePicture(uuid: string, fileName: string, presignedUrl: string): (r: PresignedUpload)
    ensures r.uploadUrl == presignedUrl
    ensures StartsWith(r.publicUrl, PublicUrlBase + ProfilePicturePrefix)
    ensures r.publicUrl == PublicUrl(ProfilePictureKey(uuid, fileName))
  {
    var key := ProfilePictureKey(uuid, fileName);
    assert PublicUrl(key) == (PublicUrlBase + ProfilePicturePrefix) + (uuid + "/" + fileName);
    PresignedUpload(presignedUrl, PublicUrl(key))
  }

  /** The public URL handed out for an upload gives its key back whenever
      the UUID and the file name hold no '?'. */
  lemma GeneratedUrlsRoundTrip(uuid: string, fileName: string, presignedUrl: string)
    requires '?' !in uuid && '?' !in fileName
    ensures ExtractS3KeyFromUrl(Some(GeneratePresignedUrl(uuid, fileName, presignedUrl).publicUrl))
      == Some(RequestImageKey(uuid, fileName))
    ensures ExtractS3KeyFromUrl(Some(GeneratePresignedUrlProfilePicture(uuid, fileName, presignedUrl).publicUrl))
      == Some(ProfilePictureKey(uuid, fileName))
  {
    KeyHasNoQuery(RequestsPrefix, uuid, fileName);
    PublicUrlRoundTrip(RequestImageKey(uuid, fileName));
    KeyHasNoQuery(ProfilePicturePrefix, uuid, fileName);
    PublicUrlRoundTrip(ProfilePictureKey(uuid, fileName));
  }

  lemma KeyHasNoQuery(prefix: string, uuid: string, fileName: string)
    requires '?' !in prefix && '?' !in uuid && '?' !in fileName
    ensures '?' !in prefix + uuid + "/" + fileName
  {
    var key := prefix + uuid + "/" + fileName;
    forall j | 0 <= j < |key| ensures key[j] != '?' {
      if j < |prefix| {
        assert key[j] == prefix[j];
      } else if j < |prefix| + |uuid| {
        assert key[j] == uuid[j - |prefix|];
      } else if j == |prefix| + |uuid| {
      } else {
        assert key[j] == fileName[j - 1 - |prefix| - |uuid|];
      }
    }
  }

  predicate OccursAt(s: string, sub: string, i: nat) {
    i + |sub| <= |s| && s[i..i + |sub|] == sub
  }

  /** String.indexOf(String), searching from position from. */
  function IndexOfFrom(s: string, sub: string, from: nat): (r: int)
    requires from <= |s|
    decreases |s| - from
    ensures r == -1 || (from <= r && OccursAt(s, sub, r))
    ensures r == -1 ==> forall j | from <= j <= |s| :: !OccursAt(s, sub, j)
    ensures r != -1 ==> forall j | from <= j < r :: !OccursAt(s, sub, j)
  {
    if OccursAt(s, sub, from) then from
    else if from == |s| then -1
    else IndexOfFrom(s, sub, from + 1)
  }

  /** String.indexOf(int ch, int fromIndex); -1 when fromIndex is past the end. */
  function IndexOfChar(s: string, c: char, from: nat): (r: int)
    decreases |s| - from
    ensures r == -1 || (from <= r < |s| && s[r] == c)
    ensures r == -1 ==> forall j | from <= j < |s| :: s[j] != c
    ensures r != -1 ==> forall j | from <= j < r :: s[j] != c
  {
    if from >= |s| then -1
    else if s[from] == c then from
    else IndexOfChar(s, c, from + 1)
  }

  /**
    extractS3KeyFromUrl: the text after the first '/' that follows the
    first occurrence of "helpnearby.s3", cut at the first '?'. Null when the
    URL is null or empty, lacks the marker, or has no '/' after it.
   */
  function ExtractS3KeyFromUrl(url: Option<string>): (key: Option<string>)
    ensures url.None? || url.value == [] ==> key.None?
    ensures key.Some? ==> '?' !in key.value
    ensures url.Some? && IndexOfFrom(url.value, BucketHostMarker, 0) == -1 ==> key.None?
  {
    if url.None? || url.value == [] then None
    else
      var s := url.value;
      var prefixIndex := IndexOfFrom(s, BucketHostMarker, 0);
      if prefixIndex == -1 then None
      else KeyAfterHost(s, prefixIndex + |BucketHostMarker|)
  }

  /** The text after the first '/' at or after from, cut at its first '?';
      null when no '/' follows. */
  function KeyAfterHost(s: string, from: nat): (key: Option<string>)
    ensures key.None? <==> IndexOfChar(s, '/', from) == -1
    ensures key.Some? ==> key.value == CutAtQuery(s[IndexOfChar(s, '/', from) + 1..])
  {
    var keyStart := IndexOfChar(s, '/', from);
    if keyStart == -1 then None
    else Some(CutAtQuery(s[keyStart + 1..]))
  }

  /** The key up to (not including) its first '?', or all of it. */
  function CutAtQuery(key: string): (k: string)
    ensures '?' !in k
    ensures |k| <= |key| && key[..|k|] == k
    ensures |k| < |key| ==> key[|k|] == '?'
  {
    var queryIndex := IndexOfChar(key, '?', 0);
    if queryIndex == -1 then key else key[..queryIndex]
  }

  /** The key read after a host is null exactly when no '/' follows the
      host; otherwise it is the text after that '/' up to its first '?'. */
  lemma KeyAfterHostShape(s: string, from: nat)
    ensures var slash := IndexOfChar(s, '/', from);
      && (slash == -1 <==> KeyAfterHost(s, from).None?)
      && (slash != -1 ==>
            var k := KeyAfterHost(s, from).value;
            && s[slash + 1..][..|k|] == k
            && (|k| < |s| - slash - 1 ==> s[slash + 1 + |k|] == '?'))
  {
    var slash := IndexOfChar(s, '/', from);
    if slash != -1 {
      var key := s[slash + 1..];
      var k := CutAtQuery(key);
      if |k| < |key| {
        assert s[slash + 1 + |k|] == key[|k|];
      }
    }
  }

  /** Once the marker is found, the key is read from the host on. */
  lemma ExtractFindsHost(s: string)
    requires s != [] && IndexOfFrom(s, BucketHostMarker, 0) != -1
    ensures ExtractS3KeyFromUrl(Some(s)) == KeyAfterHost(s, IndexOfFrom(s, BucketHostMarker, 0) + |BucketHostMarker|)
  {
  }

  /** deleteFileFromS3: the key a DeleteObject request is issued for. Null
      or empty URLs and URLs that yield no key (or an empty one) issue none;
      a failing delete is caught and logged, so nothing is thrown. */
  function DeleteFileFromS3(url: Option<string>): (deleted: Option<string>)
    ensures deleted.Some? ==> deleted.value != [] && ExtractS3KeyFromUrl(url) == deleted
    ensures ExtractS3KeyFromUrl(url).Some? && ExtractS3KeyFromUrl(url).value != [] ==> deleted.Some?
  {
    if url.None? || url.value == [] then None
    else
      var key := ExtractS3KeyFromUrl(url);
      if key.None? || key.value == [] then None else key
  }

  /** No earlier position of an https URL of the bucket holds the marker. */
  lemma {:induction false} MarkerFirstAtHost(hostTail: string, rest: string)
    ensures var s := "https://" + BucketHostMarker + hostTail + rest;
      IndexOfFrom(s, BucketHostMarker, 0) == 8
  {
    var s := "https://" + BucketHostMarker + hostTail + rest;
    assert OccursAt(s, BucketHostMarker, 8) by {
      assert s[8..21] == BucketHostMarker;
    }
    forall j | 0 <= j < 8 ensures !OccursAt(s, BucketHostMarker, j) {
      if j + 13 <= |s| {
        assert s[j..j + 13][0] == s[j];
        assert s[j..j + 13][1] == s[j + 1];
      }
    }
    IndexOfFromFirst(s, BucketHostMarker, 8);
  }

  lemma {:induction false} IndexOfFromFirst(s: string, sub: string, p: nat)
    requires p <= |s| && OccursAt(s, sub, p)
    requires forall j | 0 <= j < p :: !OccursAt(s, sub, j)
    ensures IndexOfFrom(s, sub, 0) == p
  {
    IndexOfFromSkips(s, sub, 0, p);
  }

  lemma {:induction false} IndexOfFromSkips(s: string, sub: string, from: nat, p: nat)
    requires from <= p <= |s| && OccursAt(s, sub, p)
    requires forall j | from <= j < p :: !OccursAt(s, sub, j)
    ensures IndexOfFrom(s, sub, from) == p
    decreases p - from
  {
    if from < p {
      IndexOfFromSkips(s, sub, from + 1, p);
    }
  }

  lemma {:induction false} IndexOfCharFinds(s: string, c: char, from: nat, p: nat)
    requires from <= p < |s| && s[p] == c
    requires forall j | from <= j < p :: s[j] != c
    ensures IndexOfChar(s, c, from) == p
    decreases p - from
  {
    if from < p {
      IndexOfCharFinds(s, c, from + 1, p);
    }
  }

  /**
    Round trip for any host of the bucket ("helpnearby.s3" followed by a
    host tail without '/'): the key comes back whenever it has no '?'.
   */
  lemma {:induction false} KeyRoundTrip(hostTail: string, key: string)
    requires '/' !in hostTail && '?' !in key
    ensures ExtractS3KeyFromUrl(Some("https://" + BucketHostMarker + hostTail + "/" + key)) == Some(key)
  {
    var s := "https://" + BucketHostMarker + hostTail + "/" + key;
    MarkerFirstAtHost(hostTail, "/" + key);
    assert s == "https://" + BucketHostMarker + hostTail + ("/" + key);
    var slash := 21 + |hostTail|;
    forall j | 21 <= j < slash ensures s[j] != '/' {
      assert s[j] == hostTail[j - 21];
    }
    IndexOfCharFinds(s, '/', 21, slash);
    assert s[slash + 1..] == key;
    assert forall j | 0 <= j < |key| :: key[j] in key;
  }

  /** The public URL of a generated key gives the key back. */
  lemma PublicUrlRoundTrip(key: string)
    requires '?' !in key
    ensures ExtractS3KeyFromUrl(Some(PublicUrl(key))) == Some(key)
  {
    PublicUrlBaseHost();
    KeyRoundTrip(".amazonaws.com", key);
  }

  /** The public base is the https URL of the global host, with its '/'. */
  lemma PublicUrlBaseHost()
    ensures PublicUrlBase == "https://" + BucketHostMarker + ".amazonaws.com" + "/"
  {
  }

  /** The regional host form gives the key back as well. */
  lemma RegionalUrlRoundTrip(key: string)
    requires '?' !in key
    ensures ExtractS3KeyFromUrl(Some("https://" + BucketHostMarker + ".us-east-2.amazonaws.com/" + key)) == Some(key)
  {
    assert "https://" + BucketHostMarker + ".us-east-2.amazonaws.com/" + key
        == "https://" + BucketHostMarker + ".us-east-2.amazonaws.com" + "/" + key;
    KeyRoundTrip(".us-east-2.amazonaws.com", key);
  }

  /** In a public URL the marker is found at the host, the first '/'
      after it ends the host, and the text after that '/' is the key. */
  lemma PublicUrlKeyText(k: string)
    ensures var s := PublicUrl(k);
      && IndexOfFrom(s, BucketHostMarker, 0) == 8
      && IndexOfChar(s, '/', 8 + |BucketHostMarker|) == 35
      && s[36..] == k
  {
    var s := PublicUrl(k);
    assert s == "https://" + BucketHostMarker + ".amazonaws.com" + ("/" + k);
    MarkerFirstAtHost(".amazonaws.com", "/" + k);
    forall j | 21 <= j < 35 ensures s[j] != '/' {
      assert s[j] == ".amazonaws.com"[j - 21];
    }
    IndexOfCharFinds(s, '/', 21, 35);
  }

  /** A query string on the URL is dropped from the key. */
  lemma QueryStringDropped(key: string, query: string)
    requires '?' !in key
    ensures ExtractS3KeyFromUrl(Some(PublicUrl(key + "?" + query))) == Some(key)
  {
    var k := key + "?" + query;
    PublicUrlKeyText(k);
    forall j | 0 <= j < |key| ensures k[j] != '?' {
      assert k[j] == key[j];
    }
    IndexOfCharFinds(k, '?', 0, |key|);
    assert k[..|key|] == key;
  }

  /** A generated request-image URL deletes exactly the generated key. */
  lemma DeleteGeneratedRequestImage(uuid: string, fileName: string)
    requires '?' !in uuid && '?' !in fileName
    ensures DeleteFileFromS3(Some(PublicUrl(RequestImageKey(uuid, fileName)))) == Some(RequestImageKey(uuid, fileName))
  {
    KeyHasNoQuery(RequestsPrefix, uuid, fileName);
    PublicUrlRoundTrip(RequestImageKey(uuid, fileName));
  }
}

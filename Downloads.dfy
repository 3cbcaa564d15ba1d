/**
 * `FileDownloadViewSet`: the three download lookups and the two URL patterns
 * that select between the path-and-name lookup and the hash lookup.
 *
 * A URL tail is the text between `files/` and the trailing `/` of the route.
 */
module Downloads {
  import opened Wrappers
  import opened QuerySets
  import opened FileVersions

  /** The filter `path=path, file_name=fileName`. */
  function AtPathAndName(path: string, fileName: string): FileVersion -> bool {
    (x: FileVersion) => x.path == path && x.fileName == fileName
  }

  /** The filter `version_number=revision`. */
  function HasVersion(revision: int): FileVersion -> bool {
    (x: FileVersion) => x.versionNumber == revision
  }

  /** The filter `content_hash=hash`. */
  function HasHash(hash: string): FileVersion -> bool {
    (x: FileVersion) => x.contentHash == hash
  }

  /** `order_by("-version_number").first()`: a record whose version number no
      other record exceeds. Among equal version numbers the earlier one is
      taken; the database does not promise any particular one. */
  function Latest(qs: seq<FileVersion>): (r: Option<FileVersion>)
    ensures r.None? <==> qs == []
    ensures r.Some? ==> r.value in qs
    ensures r.Some? ==> forall x :: x in qs ==> x.versionNumber <= r.value.versionNumber
  {
    if qs == [] then None
    else
      match Latest(qs[1..])
      case None => Some(qs[0])
      case Some(m) => if m.versionNumber > qs[0].versionNumber then Some(m) else Some(qs[0])
  }

  /** `retrieve`: download by primary key, scoped to the requester. */
  function DownloadById(records: seq<FileVersion>, requester: UserId, pk: nat): (r: Option<FileVersion>)
    ensures r.Some? ==> r.value in records && r.value.createdBy == requester && r.value.id == pk
    ensures r.None? <==> forall x :: x in records && x.createdBy == requester ==> x.id != pk
  {
    FindById(records, requester, pk)
  }

  /** The requester's record matches the path, the name and, when given, the revision. */
  ghost predicate MatchesUrl(x: FileVersion, requester: UserId, path: string, fileName: string, revision: Option<int>) {
    && x.createdBy == requester
    && x.path == path
    && x.fileName == fileName
    && (revision.Some? ==> x.versionNumber == revision.value)
  }

  /** `download_by_url`: with a revision, the requester's record with that
      path, name and version; without one, the latest version. */
  function DownloadByUrl(records: seq<FileVersion>, requester: UserId, path: string, fileName: string, revision: Option<int>)
    : (r: Option<FileVersion>)
    ensures r.Some? ==> r.value in records && MatchesUrl(r.value, requester, path, fileName, revision)
    ensures r.Some? && revision.None? ==>
      forall x :: x in records && MatchesUrl(x, requester, path, fileName, None) ==>
        x.versionNumber <= r.value.versionNumber
    ensures r.None? <==> forall x :: x in records ==> !MatchesUrl(x, requester, path, fileName, revision)
  {
    var qs := Filter(OwnedBy(records, requester), AtPathAndName(path, fileName));
    match revision
    case Some(v) => First(Filter(qs, HasVersion(v)))
    case None => Latest(qs)
  }

  /** `download_by_hash`: the requester's record whose content hash equals the
      given text exactly. */
  function DownloadByHash(records: seq<FileVersion>, requester: UserId, hash: string): (r: Option<FileVersion>)
    ensures r.Some? ==> r.value in records && r.value.createdBy == requester && r.value.contentHash == hash
    ensures r.None? <==> forall x :: x in records && x.createdBy == requester ==> x.contentHash != hash
  {
    First(Filter(OwnedBy(records, requester), HasHash(hash)))
  }

  /** With a revision, and for a hash, the lowest primary key among the
      matches is served, because `.first()` orders by primary key. */
  lemma ExactLookupsTakeLowestPk(records: seq<FileVersion>, requester: UserId, path: string, fileName: string, v: int, hash: string)
    requires Ascending(records)
    ensures DownloadByUrl(records, requester, path, fileName, Some(v)).Some? ==>
      forall x :: x in records && MatchesUrl(x, requester, path, fileName, Some(v)) ==>
        DownloadByUrl(records, requester, path, fileName, Some(v)).value.id <= x.id
    ensures DownloadByHash(records, requester, hash).Some? ==>
      forall x :: x in records && x.createdBy == requester && x.contentHash == hash ==>
        DownloadByHash(records, requester, hash).value.id <= x.id
  {
    var owned := OwnedBy(records, requester);
    FilterKeepsAscending(records, CreatedBy(requester));
    var qs := Filter(owned, AtPathAndName(path, fileName));
    FilterKeepsAscending(owned, AtPathAndName(path, fileName));
    FirstIsLowestPk(qs, HasVersion(v));
    FirstIsLowestPk(owned, HasHash(hash));
  }

  // ---------------------------------------------------------------------
  // URL patterns

  /** Position of the last `/` in `s`, or -1 when there is none. */
  function LastSlash(s: string): (k: int)
    ensures -1 <= k < |s|
    ensures k >= 0 ==> s[k] == '/'
    ensures forall j :: k < j < |s| ==> s[j] != '/'
  {
    if s == [] then -1
    else if s[|s| - 1] == '/' then |s| - 1
    else LastSlash(s[..|s| - 1])
  }

  /** `.` in a regular expression matches anything but a line break. */
  predicate NoLineBreak(s: string) {
    forall i :: 0 <= i < |s| ==> s[i] != '\n'
  }

  /** The pattern `(?P<path>.+)/(?P<filename>[^/]+)` over a whole tail: the
      file name is what follows the last `/`, the path what precedes it. */
  function SplitTail(tail: string): (r: Option<(string, string)>)
  {
    var k := LastSlash(tail);
    if 1 <= k < |tail| - 1 && NoLineBreak(tail[..k]) then Some((tail[..k], tail[k + 1..]))
    else None
  }

  /** A split the path-and-name pattern accepts. */
  ghost predicate ValidSplit(path: string, fileName: string) {
    path != [] && fileName != [] && NoLineBreak(path) && forall i :: 0 <= i < |fileName| ==> fileName[i] != '/'
  }

  /** What the pattern yields rebuilds the tail and is a valid split ... */
  lemma SplitTailSound(tail: string)
    ensures SplitTail(tail).Some? ==>
      var (path, fileName) := SplitTail(tail).value;
      tail == path + "/" + fileName && ValidSplit(path, fileName)
  {
    if SplitTail(tail).Some? {
      var k := LastSlash(tail);
      assert tail == tail[..k] + "/" + tail[k + 1..];
    }
  }

  /** ... and every valid split is the one the pattern yields. */
  lemma SplitTailComplete(path: string, fileName: string)
    requires ValidSplit(path, fileName)
    ensures SplitTail(path + "/" + fileName) == Some((path, fileName))
  {
    var tail := path + "/" + fileName;
    var k := LastSlash(tail);
    assert tail[|path|] == '/';
    assert k == |path|;
    assert tail[..k] == path;
    assert tail[k + 1..] == fileName;
  }

  predicate IsHexDigit(c: char) {
    ('0' <= c <= '9') || ('a' <= c <= 'f') || ('A' <= c <= 'F')
  }

  /** The pattern `[0-9a-fA-F]{64}`. */
  predicate IsHexHash(h: string) {
    |h| == 64 && forall i :: 0 <= i < |h| ==> IsHexDigit(h[i])
  }

  /** Which download action a URL tail reaches. `NotAnAction` is a tail that
      neither action pattern matches; it is left to the primary-key route or
      to no route at all. */
  datatype Route = ByHash(hash: string) | ByPathAndName(path: string, fileName: string) | NotAnAction

  /** The hash pattern `cas/(?P<hash>[0-9a-fA-F]{64})` is tried first (the
      router lists a view set's extra actions by name), then the path-and-name
      pattern. */
  function RouteTail(tail: string): (r: Route)
    ensures r.ByHash? <==> |tail| == 68 && tail[..4] == "cas/" && IsHexHash(tail[4..])
    ensures r.ByHash? ==> tail == "cas/" + r.hash
    ensures r.ByPathAndName? ==> tail == r.path + "/" + r.fileName && ValidSplit(r.path, r.fileName)
  {
    if |tail| == 68 && tail[..4] == "cas/" && IsHexHash(tail[4..]) then ByHash(tail[4..])
    else
      SplitTailSound(tail);
      match SplitTail(tail)
      case Some((path, fileName)) => ByPathAndName(path, fileName)
      case None => NotAnAction
  }

  /** Every valid path and file name that does not spell a hash tail reaches
      the path-and-name lookup with exactly that split. */
  lemma PathRouteComplete(path: string, fileName: string)
    requires ValidSplit(path, fileName)
    requires var tail := path + "/" + fileName;
      !(|tail| == 68 && tail[..4] == "cas/" && IsHexHash(tail[4..]))
    ensures RouteTail(path + "/" + fileName) == ByPathAndName(path, fileName)
  {
    SplitTailComplete(path, fileName);
  }

  /** Only a tail `cas/` followed by exactly 64 hex digits reaches the hash
      lookup, and every such tail does, although it would also match the
      path-and-name pattern (path `cas`). */
  lemma HashRouteWins(h: string)
    ensures RouteTail("cas/" + h) == ByHash(h) <==> IsHexHash(h)
    ensures IsHexHash(h) ==> SplitTail("cas/" + h) == Some(("cas", h))
  {
    var tail := "cas/" + h;
    assert tail[..4] == "cas/" && tail[4..] == h;
    if IsHexHash(h) {
      assert forall i :: 0 <= i < |h| ==> h[i] != '/' by {
        forall i | 0 <= i < |h| ensures h[i] != '/' {
          assert IsHexDigit(h[i]);
        }
      }
      assert "cas" + "/" + h == tail;
      SplitTailComplete("cas", h);
    }
  }

  /** A download request whose URL tail one of the two action patterns
      matches. The `revision` query parameter is only read by the
      path-and-name lookup. */
  function Download(records: seq<FileVersion>, requester: UserId, tail: string, revision: Option<int>): (r: Option<FileVersion>)
    requires !RouteTail(tail).NotAnAction?
    ensures r.Some? ==> r.value in records && r.value.createdBy == requester
  {
    match RouteTail(tail)
    case ByHash(h) => DownloadByHash(records, requester, h)
    case ByPathAndName(path, fileName) => DownloadByUrl(records, requester, path, fileName, revision)
  }

  /** Owner isolation for the download by primary key: another owner's record
      is answered exactly as if it did not exist. */
  lemma ByIdSeesOnlyOwnRecords(before: seq<FileVersion>, other: FileVersion, after: seq<FileVersion>,
                               requester: UserId, pk: nat)
    requires other.createdBy != requester
    ensures DownloadById(before + [other] + after, requester, pk) == DownloadById(before + after, requester, pk)
  {
    ForeignRecordInvisible(before, other, after, requester);
  }

  /** Owner isolation for the downloads by URL tail, through either pattern. */
  lemma ByTailSeesOnlyOwnRecords(before: seq<FileVersion>, other: FileVersion, after: seq<FileVersion>,
                                 requester: UserId, tail: string, revision: Option<int>)
    requires other.createdBy != requester
    requires !RouteTail(tail).NotAnAction?
    ensures Download(before + [other] + after, requester, tail, revision) == Download(before + after, requester, tail, revision)
  {
    ForeignRecordInvisible(before, other, after, requester);
  }

  /** A filter over two records that both pass it keeps both. */
  lemma FilterPairKept(a: FileVersion, b: FileVersion, p: FileVersion -> bool)
    requires p(a) && p(b)
    ensures Filter([a, b], p) == [a, b]
  {
    assert [a, b][1..] == [b] && [b][1..] == [];
  }

  /** A filter over two records that only the first passes keeps the first. */
  lemma FilterPairFirst(a: FileVersion, b: FileVersion, p: FileVersion -> bool)
    requires p(a) && !p(b)
    ensures Filter([a, b], p) == [a]
  {
    assert [a, b][1..] == [b] && [b][1..] == [];
  }

  lemma ReportTxtRoute()
    ensures RouteTail("docs/report.txt") == ByPathAndName("docs", "report.txt")
  {
    assert "docs" + "/" + "report.txt" == "docs/report.txt";
    SplitTailComplete("docs", "report.txt");
  }

  /** Two uploads of `report.txt` under `docs` by one owner: the latest wins
      without a revision, and revision 1 gives the first. */
  lemma TwoUploadsByPath(owner: UserId, h1: string, h2: string)
    ensures var v1 := FileVersion(1, owner, "docs", "report.txt", 1, h1);
            var v2 := FileVersion(2, owner, "docs", "report.txt", 2, h2);
            && RouteTail("docs/report.txt") == ByPathAndName("docs", "report.txt")
            && Download([v1, v2], owner, "docs/report.txt", None) == Some(v2)
            && Download([v1, v2], owner, "docs/report.txt", Some(1)) == Some(v1)
  {
    var v1 := FileVersion(1, owner, "docs", "report.txt", 1, h1);
    var v2 := FileVersion(2, owner, "docs", "report.txt", 2, h2);
    ReportTxtRoute();
    FilterPairKept(v1, v2, CreatedBy(owner));
    FilterPairKept(v1, v2, AtPathAndName("docs", "report.txt"));
    FilterPairFirst(v1, v2, HasVersion(1));
    assert Latest([v1, v2]) == Some(v2) by {
      assert [v1, v2][1..] == [v2] && [v2][1..] == [];
    }
  }

  /** The same two uploads: the first's hash and the first's pk give the first. */
  lemma TwoUploadsByHashAndPk(owner: UserId, h1: string, h2: string)
    requires h1 != h2 && IsHexHash(h1)
    ensures var v1 := FileVersion(1, owner, "docs", "report.txt", 1, h1);
            var v2 := FileVersion(2, owner, "docs", "report.txt", 2, h2);
            && RouteTail("cas/" + h1) == ByHash(h1)
            && Download([v1, v2], owner, "cas/" + h1, None) == Some(v1)
            && DownloadById([v1, v2], owner, 1) == Some(v1)
  {
    var v1 := FileVersion(1, owner, "docs", "report.txt", 1, h1);
    var v2 := FileVersion(2, owner, "docs", "report.txt", 2, h2);
    HashRouteWins(h1);
    FilterPairKept(v1, v2, CreatedBy(owner));
    FilterPairFirst(v1, v2, HasHash(h1));
    FilterPairFirst(v1, v2, HasPk(1));
  }

  /** Another user asking for the same records is answered "not found" by
      every lookup. */
  lemma OtherUserScenario(owner: UserId, eve: UserId, records: seq<FileVersion>, pk: nat, tail: string, revision: Option<int>)
    requires owner != eve
    requires forall x :: x in records ==> x.createdBy == owner
    requires !RouteTail(tail).NotAnAction?
    ensures DownloadById(records, eve, pk) == None
    ensures Download(records, eve, tail, revision) == None
  {
  }
}

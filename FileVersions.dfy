/**
 * The file-version table and the owner scoping of `FileVersionViewSet`
 * (create, list, retrieve, destroy).
 *
 * Every query the view sets make starts from `get_queryset`, which keeps only
 * the requester's records; a record of another owner is therefore answered
 * exactly like a record that does not exist.
 */
module FileVersions {
  import opened Wrappers
  import opened QuerySets

  /** Primary key of a user, the value of `created_by`. */
  type UserId = nat

  /** One stored revision. Version number and content hash are computed
      outside this model and arrive as plain values. */
  datatype FileVersion = FileVersion(
    id: nat,
    createdBy: UserId,
    path: string,
    fileName: string,
    versionNumber: int,
    contentHash: string)

  /** The table is kept in primary-key order, ids strictly increasing. */
  ghost predicate Ascending(s: seq<FileVersion>) {
    forall i, j :: 0 <= i < j < |s| ==> s[i].id < s[j].id
  }

  /** The filter `created_by=requester`. */
  function CreatedBy(requester: UserId): FileVersion -> bool {
    (x: FileVersion) => x.createdBy == requester
  }

  /** The filter `pk=pk`. */
  function HasPk(pk: nat): FileVersion -> bool {
    (x: FileVersion) => x.id == pk
  }

  /** The rows that survive deleting primary key `pk`. */
  function NotPk(pk: nat): FileVersion -> bool {
    (x: FileVersion) => x.id != pk
  }

  /** `get_queryset`: the requester's records, in primary-key order. */
  function OwnedBy(records: seq<FileVersion>, requester: UserId): (r: seq<FileVersion>)
    ensures forall x :: x in r <==> x in records && x.createdBy == requester
  {
    Filter(records, CreatedBy(requester))
  }

  /** `get_object_or_404(get_queryset(), pk=pk)`: the requester's record with
      that primary key, or nothing (404). */
  function FindById(records: seq<FileVersion>, requester: UserId, pk: nat): (r: Option<FileVersion>)
    ensures r.Some? ==> r.value in records && r.value.createdBy == requester && r.value.id == pk
    ensures r.None? <==> forall x :: x in records && x.createdBy == requester ==> x.id != pk
  {
    First(Filter(OwnedBy(records, requester), HasPk(pk)))
  }

  /** The table after the row with primary key `pk` is deleted. */
  function Without(records: seq<FileVersion>, pk: nat): (r: seq<FileVersion>)
    ensures forall x :: x in r <==> x in records && x.id != pk
  {
    Filter(records, NotPk(pk))
  }

  lemma {:induction false} FilterKeepsAscending(s: seq<FileVersion>, p: FileVersion -> bool)
    requires Ascending(s)
    ensures Ascending(Filter(s, p))
  {
    if s != [] {
      AscendingTail(s);
      FilterKeepsAscending(s[1..], p);
      if p(s[0]) {
        ConsAscending(s[0], Filter(s[1..], p));
      }
    }
  }

  /** A record with a smaller pk than all of an ascending sequence can lead it. */
  lemma ConsAscending(x: FileVersion, rest: seq<FileVersion>)
    requires Ascending(rest) && forall y :: y in rest ==> x.id < y.id
    ensures Ascending([x] + rest)
  {
    var t := [x] + rest;
    forall i, j | 0 <= i < j < |t| ensures t[i].id < t[j].id {
      assert t[j] == rest[j - 1];
      if i > 0 {
        assert t[i] == rest[i - 1];
      }
    }
  }

  /** On a table in primary-key order, `.first()` of any filter is the
      matching record with the lowest primary key. */
  lemma FirstIsLowestPk(s: seq<FileVersion>, p: FileVersion -> bool)
    requires Ascending(s)
    ensures First(Filter(s, p)).Some? ==>
      forall x :: x in s && p(x) ==> First(Filter(s, p)).value.id <= x.id
  {
    FilterKeepsAscending(s, p);
    var f := Filter(s, p);
    forall x | x in s && p(x) && f != [] ensures f[0].id <= x.id {
      var k :| 0 <= k < |f| && f[k] == x;
    }
  }

  /** Primary keys are unique, so at most one record has a given pk. */
  lemma AscendingIdsUnique(s: seq<FileVersion>, x: FileVersion, y: FileVersion)
    requires Ascending(s) && x in s && y in s && x.id == y.id
    ensures x == y
  {
    var i :| 0 <= i < |s| && s[i] == x;
    var j :| 0 <= j < |s| && s[j] == y;
    assert i == j;
  }

  /** Deleting by primary key removes exactly the one row that has it. */
  lemma AscendingTail(s: seq<FileVersion>)
    requires Ascending(s) && s != []
    ensures Ascending(s[1..])
    ensures forall x :: x in s[1..] ==> s[0].id < x.id
  {
    var tail := s[1..];
    forall a, b | 0 <= a < b < |tail| ensures tail[a].id < tail[b].id {
      assert tail[a] == s[a + 1] && tail[b] == s[b + 1];
    }
    forall x | x in tail ensures s[0].id < x.id {
      var k :| 0 <= k < |tail| && tail[k] == x;
      assert x == s[k + 1];
    }
  }

  lemma {:induction false} WithoutRemovesOne(s: seq<FileVersion>, i: nat)
    requires Ascending(s) && i < |s|
    ensures Without(s, s[i].id) == s[..i] + s[i + 1..]
  {
    var pk := s[i].id;
    var tail := s[1..];
    AscendingTail(s);
    if i == 0 {
      FilterKeepsAll(tail, NotPk(pk));
      assert Filter(s, NotPk(pk)) == Filter(tail, NotPk(pk));
    } else {
      assert tail[i - 1] == s[i];
      WithoutRemovesOne(tail, i - 1);
      WithoutStepsOver(s, pk, i);
    }
  }

  /** One step of the induction above: the head, whose pk differs, is kept. */
  lemma WithoutStepsOver(s: seq<FileVersion>, pk: nat, i: nat)
    requires 0 < i < |s| && s[0].id != pk
    requires Without(s[1..], pk) == s[1..][..i - 1] + s[1..][i..]
    ensures Without(s, pk) == s[..i] + s[i + 1..]
  {
    assert Without(s, pk) == [s[0]] + Without(s[1..], pk);
    DropAt(s, i);
  }

  lemma DropAt(s: seq<FileVersion>, i: nat)
    requires 0 < i < |s|
    ensures s[..i] + s[i + 1..] == [s[0]] + (s[1..][..i - 1] + s[1..][i..])
  {
    assert s[1..][..i - 1] == s[1..i];
    assert s[1..][i..] == s[i + 1..];
    assert s[..i] == [s[0]] + s[1..i];
  }

  /** A record of another owner is invisible: adding it anywhere to the table
      leaves the requester's query set unchanged. */
  lemma ForeignRecordInvisible(before: seq<FileVersion>, r: FileVersion, after: seq<FileVersion>, requester: UserId)
    requires r.createdBy != requester
    ensures OwnedBy(before + [r] + after, requester) == OwnedBy(before + after, requester)
  {
    var p := CreatedBy(requester);
    assert [r][1..] == [];
    assert Filter([r], p) == [];
    FilterConcat(before + [r], after, p);
    FilterConcat(before, [r], p);
    FilterConcat(before, after, p);
    assert Filter(before + [r], p) == Filter(before, p);
  }

  /** A record of the requester appended to the table shows up last in the
      requester's query set, and nowhere else. */
  lemma AppendedRecordScope(records: seq<FileVersion>, r: FileVersion, u: UserId)
    ensures OwnedBy(records + [r], u) ==
      OwnedBy(records, u) + (if r.createdBy == u then [r] else [])
  {
    var p := CreatedBy(u);
    FilterConcat(records, [r], p);
    assert Filter([r], p) == (if r.createdBy == u then [r] else []);
  }

  /** Deleting one owner's record does not change what any other owner sees. */
  lemma DeleteInvisibleToOthers(records: seq<FileVersion>, owner: UserId, pk: nat, other: UserId)
    requires Ascending(records)
    requires FindById(records, owner, pk).Some?
    requires other != owner
    ensures OwnedBy(Without(records, pk), other) == OwnedBy(records, other)
  {
    var mine := CreatedBy(other);
    var keep := NotPk(pk);
    var target := FindById(records, owner, pk).value;
    forall x | x in Filter(records, mine) ensures keep(x) {
      if x.id == pk {
        AscendingIdsUnique(records, x, target);
      }
    }
    FilterCommutes(records, keep, mine);
    FilterKeepsAll(Filter(records, mine), keep);
  }

  /**
   * The file-version table behind `FileVersionViewSet`: records in
   * primary-key order and the next primary key to hand out.
   */
  class FileVersionStore {
    var records: seq<FileVersion>
    var nextId: nat

    ghost predicate Valid()
      reads this
    {
      Ascending(records) && forall x :: x in records ==> x.id < nextId
    }

    constructor ()
      ensures Valid() && records == [] && nextId == 1
    {
      records := [];
      nextId := 1;
    }

    /** `create`: a new record owned by the requester, with a fresh primary key. */
    method Create(requester: UserId, path: string, fileName: string, versionNumber: int, contentHash: string)
      returns (r: FileVersion)
      requires Valid()
      modifies this
      ensures Valid()
      ensures r == FileVersion(old(nextId), requester, path, fileName, versionNumber, contentHash)
      ensures records == old(records) + [r]
      ensures nextId == old(nextId) + 1
    {
      r := FileVersion(nextId, requester, path, fileName, versionNumber, contentHash);
      records := records + [r];
      nextId := nextId + 1;
    }

    /** `destroy`: deletes the requester's record with primary key `pk`;
        reports not-found, and changes nothing, when the requester has none. */
    method Destroy(requester: UserId, pk: nat) returns (deleted: bool)
      requires Valid()
      modifies this
      ensures Valid()
      ensures deleted <==> FindById(old(records), requester, pk).Some?
      ensures deleted ==> records == Without(old(records), pk)
      ensures deleted ==> forall x :: x in records ==> x.id != pk
      ensures !deleted ==> records == old(records)
      ensures nextId == old(nextId)
    {
      var found := FindById(records, requester, pk);
      if found.Some? {
        FilterKeepsAscending(records, NotPk(pk));
        records := Without(records, pk);
        deleted := true;
      } else {
        deleted := false;
      }
    }
  }
}

/**
 * The `notes` collection as an in-memory table: the `Notes` record, the
 * filters the handlers build, and the effect of the driver calls they make
 * (`find_one`, `find` sorted by date, `insert_one`, `delete_one`,
 * `delete_many`, `update_one` with `$set`). Documents are kept in insertion
 * order. MongoDB promises no order for an unsorted `find_one`, `delete_one` or
 * `update_one`; taking the first match is safe because every such filter the
 * handlers build names a note id, and ids are unique (`UniqueIds`), so at most
 * one note matches.
 */
module NotesTable {
  import opened Wrappers

  /** A point in time; only its order matters here. */
  type Date = int

  newtype U32 = x: int | 0 <= x < 0x1_0000_0000

  /** `Notes`. `user` is the `userid` of the owner. */
  datatype Note = Note(noteId: string, title: string, priority: U32, text: string, user: string, date: Date)

  /** The query documents the handlers build. */
  datatype Filter =
    | ByUser(user: string)
    | ByNoteId(noteId: string)
    | ByNoteIdAndUser(noteId: string, user: string)

  predicate Matches(f: Filter, n: Note) {
    match f
    case ByUser(u) => n.user == u
    case ByNoteId(id) => n.noteId == id
    case ByNoteIdAndUser(id, u) => n.noteId == id && n.user == u
  }

  /** No two notes share a `note_id`. */
  ghost predicate UniqueIds(s: seq<Note>) {
    forall i, j :: 0 <= i < j < |s| ==> s[i].noteId != s[j].noteId
  }

  /**
   * A filter that names a note id matches at most one note of a table with
   * unique ids, so which match `find_one`, `delete_one` or `update_one` takes
   * does not depend on the order of the table.
   */
  lemma IdFilterMatchesAtMostOne(s: seq<Note>, f: Filter, i: nat, j: nat)
    requires UniqueIds(s)
    requires !f.ByUser?
    requires i < |s| && j < |s| && Matches(f, s[i]) && Matches(f, s[j])
    ensures i == j
  {
  }

  /** The notes of `user`, in table order. */
  function NotesOf(s: seq<Note>, user: string): (r: seq<Note>)
    ensures forall n :: n in r <==> n in s && n.user == user
    ensures |r| <= |s|
  {
    if s == [] then [] else (if s[0].user == user then [s[0]] else []) + NotesOf(s[1..], user)
  }

  /** From `before` to `after` the notes of every user other than `owner` stayed exactly as they were. */
  ghost predicate OnlyOwnerTouched(before: seq<Note>, after: seq<Note>, owner: string) {
    forall u :: u != owner ==> NotesOf(after, u) == NotesOf(before, u)
  }

  /** Position of the first note `f` matches, or `|s|` when there is none. */
  function FirstMatch(s: seq<Note>, f: Filter): (i: nat)
    ensures i <= |s|
    ensures i < |s| ==> Matches(f, s[i])
    ensures forall j :: 0 <= j < i ==> !Matches(f, s[j])
  {
    if s == [] then 0 else if Matches(f, s[0]) then 0 else 1 + FirstMatch(s[1..], f)
  }

  /** `find_one`: the first note the filter matches, if any. */
  function FindOne(s: seq<Note>, f: Filter): (r: Option<Note>)
    ensures r.Some? <==> exists j :: 0 <= j < |s| && Matches(f, s[j])
    ensures r.Some? ==> r.value in s && Matches(f, r.value)
  {
    var i := FirstMatch(s, f);
    if i < |s| then Some(s[i]) else None
  }

  /** `delete_one`: remove the first note the filter matches, if any. */
  function DeleteOne(s: seq<Note>, f: Filter): (r: seq<Note>)
    ensures FindOne(s, f).None? ==> r == s
    ensures FindOne(s, f).Some? ==> |r| == |s| - 1 && multiset(r) + multiset{FindOne(s, f).value} == multiset(s)
    ensures forall n :: n in r ==> n in s
    ensures forall n :: n in s && !Matches(f, n) ==> n in r
  {
    var i := FirstMatch(s, f);
    if i < |s| then
      assert s == s[..i] + [s[i]] + s[i + 1..];
      s[..i] + s[i + 1..]
    else
      s
  }

  /** `delete_many`: remove every note the filter matches. */
  function DeleteMany(s: seq<Note>, f: Filter): (r: seq<Note>)
    ensures forall n :: n in r <==> n in s && !Matches(f, n)
    ensures |r| <= |s|
  {
    if s == [] then [] else (if Matches(f, s[0]) then [] else [s[0]]) + DeleteMany(s[1..], f)
  }

  /** The `$set` of `update_note`: new title, priority and text. */
  function SetContent(n: Note, title: string, priority: U32, text: string): Note {
    n.(title := title, priority := priority, text := text)
  }

  /** `update_one` with that `$set`: rewrite the first note the filter matches, if any. */
  function UpdateOne(s: seq<Note>, f: Filter, title: string, priority: U32, text: string): (r: seq<Note>)
    ensures |r| == |s|
    ensures forall j :: 0 <= j < |s| ==>
      r[j].noteId == s[j].noteId && r[j].user == s[j].user && r[j].date == s[j].date
    ensures forall j :: 0 <= j < |s| && j != FirstMatch(s, f) ==> r[j] == s[j]
    ensures FindOne(s, f).None? ==> r == s
    ensures FindOne(s, f).Some? ==>
      var m := FindOne(s, f).value;
      r[FirstMatch(s, f)] == Note(m.noteId, title, priority, text, m.user, m.date)
  {
    var i := FirstMatch(s, f);
    if i < |s| then s[i := SetContent(s[i], title, priority, text)] else s
  }

  /** Newest first: each note is at least as recent as the next one. */
  ghost predicate SortedByDateDesc(s: seq<Note>) {
    forall i, j :: 0 <= i < j < |s| && j == i + 1 ==> s[i].date >= s[j].date
  }

  /** In a newest-first list every note is at least as recent as every later one. */
  lemma {:induction false} SortedMeansNewestFirst(s: seq<Note>)
    requires SortedByDateDesc(s)
    ensures forall i, j :: 0 <= i <= j < |s| ==> s[i].date >= s[j].date
  {
    if |s| > 1 {
      var init := s[..|s| - 1];
      assert SortedByDateDesc(init) by {
        forall i, j | 0 <= i < j < |init| && j == i + 1 ensures init[i].date >= init[j].date {
          assert init[i] == s[i] && init[j] == s[j];
        }
      }
      SortedMeansNewestFirst(init);
      forall i, j | 0 <= i <= j < |s|
        ensures s[i].date >= s[j].date
      {
        if j < |s| - 1 {
          assert init[i] == s[i] && init[j] == s[j];
        } else if i < j {
          assert init[i] == s[i] && init[j - 1] == s[j - 1];
        }
      }
    }
  }

  /** Placing `n` among the notes of a newest-first list. */
  function InsertByDate(n: Note, s: seq<Note>): (r: seq<Note>)
    requires SortedByDateDesc(s)
    ensures SortedByDateDesc(r)
    ensures multiset(r) == multiset(s) + multiset{n}
    ensures r[0] == n || (s != [] && r[0] == s[0])
  {
    if s == [] || n.date >= s[0].date then
      [n] + s
    else
      var rest := InsertByDate(n, s[1..]);
      assert s == [s[0]] + s[1..];
      [s[0]] + rest
  }

  /** The order of `sort: {"date": -1}`: newest first. */
  function SortByDateDesc(s: seq<Note>): (r: seq<Note>)
    ensures SortedByDateDesc(r)
    ensures multiset(r) == multiset(s)
  {
    if s == [] then
      []
    else
      assert s == [s[0]] + s[1..];
      InsertByDate(s[0], SortByDateDesc(s[1..]))
  }

  lemma {:induction false} NotesOfAppend(a: seq<Note>, b: seq<Note>, u: string)
    ensures NotesOf(a + b, u) == NotesOf(a, u) + NotesOf(b, u)
  {
    if a == [] {
      assert a + b == b;
    } else {
      assert (a + b)[0] == a[0];
      assert (a + b)[1..] == a[1..] + b;
      NotesOfAppend(a[1..], b, u);
    }
  }

  lemma NotesOfSplit(s: seq<Note>, i: nat, u: string)
    requires i < |s|
    ensures NotesOf(s, u) == NotesOf(s[..i], u) + NotesOf([s[i]], u) + NotesOf(s[i + 1..], u)
  {
    assert s == s[..i] + [s[i]] + s[i + 1..];
    NotesOfAppend(s[..i] + [s[i]], s[i + 1..], u);
    NotesOfAppend(s[..i], [s[i]], u);
  }

  /** Tenancy is transitive: two steps that only touch the owner's notes make one. */
  lemma OnlyOwnerTouchedTrans(a: seq<Note>, b: seq<Note>, c: seq<Note>, owner: string)
    requires OnlyOwnerTouched(a, b, owner) && OnlyOwnerTouched(b, c, owner)
    ensures OnlyOwnerTouched(a, c, owner)
  {
  }

  /** Adding a note that belongs to `owner` leaves every other user's notes as they were. */
  lemma InsertTouchesOnlyOwner(s: seq<Note>, n: Note, owner: string)
    requires n.user == owner
    ensures OnlyOwnerTouched(s, s + [n], owner)
    ensures NotesOf(s + [n], owner) == NotesOf(s, owner) + [n]
  {
    forall u ensures NotesOf(s + [n], u) == NotesOf(s, u) + NotesOf([n], u) {
      NotesOfAppend(s, [n], u);
    }
  }

  /** `delete_one` filtered on the owner removes none of another user's notes. */
  lemma DeleteOneTouchesOnlyOwner(s: seq<Note>, noteId: string, owner: string)
    ensures OnlyOwnerTouched(s, DeleteOne(s, ByNoteIdAndUser(noteId, owner)), owner)
  {
    var f := ByNoteIdAndUser(noteId, owner);
    var i := FirstMatch(s, f);
    if i < |s| {
      assert DeleteOne(s, f) == s[..i] + s[i + 1..];
      forall u | u != owner
        ensures NotesOf(s[..i] + s[i + 1..], u) == NotesOf(s, u)
      {
        DropKeepsOthers(s, i, owner, u);
      }
    }
  }

  /** Dropping one note of `owner` leaves the notes of any other user as they were. */
  lemma DropKeepsOthers(s: seq<Note>, i: nat, owner: string, u: string)
    requires i < |s| && s[i].user == owner && u != owner
    ensures NotesOf(s[..i] + s[i + 1..], u) == NotesOf(s, u)
  {
    assert NotesOf([s[i]], u) == [];
    NotesOfSplit(s, i, u);
    NotesOfAppend(s[..i], s[i + 1..], u);
  }

  /** `delete_many` on the owner's filter empties the owner's notes and keeps everybody else's. */
  lemma {:induction false} DeleteManyTouchesOnlyOwner(s: seq<Note>, owner: string)
    ensures OnlyOwnerTouched(s, DeleteMany(s, ByUser(owner)), owner)
    ensures NotesOf(DeleteMany(s, ByUser(owner)), owner) == []
  {
    if s != [] {
      var f := ByUser(owner);
      DeleteManyTouchesOnlyOwner(s[1..], owner);
      var tail := DeleteMany(s[1..], f);
      forall u
        ensures NotesOf(DeleteMany(s, f), u) == NotesOf((if Matches(f, s[0]) then [] else [s[0]]), u) + NotesOf(tail, u)
      {
        NotesOfAppend(if Matches(f, s[0]) then [] else [s[0]], tail, u);
      }
      forall u ensures NotesOf(s, u) == NotesOf([s[0]], u) + NotesOf(s[1..], u) {
        assert s == [s[0]] + s[1..];
        NotesOfAppend([s[0]], s[1..], u);
      }
    }
  }

  /** `update_one` filtered on the owner rewrites none of another user's notes. */
  lemma UpdateOneTouchesOnlyOwner(s: seq<Note>, noteId: string, owner: string, title: string, priority: U32, text: string)
    ensures OnlyOwnerTouched(s, UpdateOne(s, ByNoteIdAndUser(noteId, owner), title, priority, text), owner)
  {
    var f := ByNoteIdAndUser(noteId, owner);
    var r := UpdateOne(s, f, title, priority, text);
    var i := FirstMatch(s, f);
    if i < |s| {
      forall u | u != owner
        ensures NotesOf(r, u) == NotesOf(s, u)
      {
        NotesOfSplit(s, i, u);
        NotesOfSplit(r, i, u);
        assert r[..i] == s[..i];
        assert r[i + 1..] == s[i + 1..];
      }
    }
  }

  lemma InsertFreshKeepsIdsUnique(s: seq<Note>, n: Note)
    requires UniqueIds(s)
    requires FindOne(s, ByNoteId(n.noteId)).None?
    ensures UniqueIds(s + [n])
  {
    forall i | 0 <= i < |s|
      ensures s[i].noteId != n.noteId
    {
      assert Matches(ByNoteId(n.noteId), s[i]) <==> s[i].noteId == n.noteId;
    }
  }

  lemma DeleteOneKeepsIdsUnique(s: seq<Note>, f: Filter)
    requires UniqueIds(s)
    ensures UniqueIds(DeleteOne(s, f))
  {
    var i := FirstMatch(s, f);
    if i < |s| {
      assert DeleteOne(s, f) == s[..i] + s[i + 1..];
      DropKeepsIdsUnique(s, i);
    }
  }

  /** Dropping one note keeps note ids unique. */
  lemma DropKeepsIdsUnique(s: seq<Note>, i: nat)
    requires UniqueIds(s) && i < |s|
    ensures UniqueIds(s[..i] + s[i + 1..])
  {
    var r := s[..i] + s[i + 1..];
    forall a, b | 0 <= a < b < |r|
      ensures r[a].noteId != r[b].noteId
    {
      var a' := if a < i then a else a + 1;
      var b' := if b < i then b else b + 1;
      assert r[a] == s[a'] && r[b] == s[b'];
    }
  }

  lemma UpdateOneKeepsIdsUnique(s: seq<Note>, f: Filter, title: string, priority: U32, text: string)
    requires UniqueIds(s)
    ensures UniqueIds(UpdateOne(s, f, title, priority, text))
  {
  }

  lemma {:induction false} DeleteManyKeepsIdsUnique(s: seq<Note>, f: Filter)
    requires UniqueIds(s)
    ensures UniqueIds(DeleteMany(s, f))
  {
    if s != [] {
      DeleteManyKeepsIdsUnique(s[1..], f);
      var tail := DeleteMany(s[1..], f);
      if !Matches(f, s[0]) {
        var r := DeleteMany(s, f);
        forall b | 0 < b < |r|
          ensures r[0].noteId != r[b].noteId
        {
          assert r[b] in tail;
          var k :| 0 <= k < |s[1..]| && s[1..][k] == r[b];
          assert s[k + 1] == r[b];
        }
      }
    }
  }

  /**
   * The table after `delete_one` on `(id, owner)` for each id of `ids` in
   * turn. Each call removes at most one note.
   */
  function DeleteEach(s: seq<Note>, ids: seq<string>, owner: string): (r: seq<Note>)
    ensures |s| - |ids| <= |r| <= |s|
  {
    if ids == [] then s else DeleteOne(DeleteEach(s, ids[..|ids| - 1], owner), ByNoteIdAndUser(ids[|ids| - 1], owner))
  }

  /** The requested ids, in request order, for which `owner` has a note in `s`: what the lookups of `delete_notes` can find. */
  function OwnedIds(s: seq<Note>, ids: seq<string>, owner: string): (r: seq<string>)
    ensures forall id :: id in r <==> id in ids && FindOne(s, ByNoteIdAndUser(id, owner)).Some?
    ensures |r| <= |ids|
  {
    if ids == [] then
      []
    else
      var id := ids[|ids| - 1];
      OwnedIds(s, ids[..|ids| - 1], owner) + (if FindOne(s, ByNoteIdAndUser(id, owner)).Some? then [id] else [])
  }

  /**
   * Ids split into confirmed and refused deletions, out of ids the lookups
   * found, are requested ids the owner owns, and there are no more of them
   * than requested ids.
   */
  lemma AttemptsAreOwnedRequests(s: seq<Note>, ids: seq<string>, owner: string,
                                 deleted: seq<string>, notDeleted: seq<string>, attempted: seq<string>)
    requires multiset(deleted) + multiset(notDeleted) == multiset(attempted)
    requires multiset(attempted) <= multiset(OwnedIds(s, ids, owner))
    ensures |deleted| + |notDeleted| <= |ids|
    ensures forall id :: id in deleted || id in notDeleted ==>
      id in ids && FindOne(s, ByNoteIdAndUser(id, owner)).Some?
  {
    var owned := OwnedIds(s, ids, owner);
    assert multiset(owned) == multiset(attempted) + (multiset(owned) - multiset(attempted));
    forall id | id in deleted || id in notDeleted
      ensures id in owned
    {
      assert id in multiset(attempted);
    }
  }

  /**
   * Deleting a list of the owner's ids, one `delete_one` at a time, removes
   * only notes of the owner whose id is listed, keeps every other note, and
   * keeps ids unique.
   */
  lemma {:induction false} DeleteEachTouchesOnlyOwner(s: seq<Note>, ids: seq<string>, owner: string)
    ensures OnlyOwnerTouched(s, DeleteEach(s, ids, owner), owner)
    ensures forall n :: n in DeleteEach(s, ids, owner) ==> n in s
    ensures forall n :: n in s && !(n.user == owner && n.noteId in ids) ==> n in DeleteEach(s, ids, owner)
    ensures UniqueIds(s) ==> UniqueIds(DeleteEach(s, ids, owner))
  {
    if ids != [] {
      var init := ids[..|ids| - 1];
      var mid := DeleteEach(s, init, owner);
      DeleteEachTouchesOnlyOwner(s, init, owner);
      DeleteOneTouchesOnlyOwner(mid, ids[|ids| - 1], owner);
      OnlyOwnerTouchedTrans(s, mid, DeleteEach(s, ids, owner), owner);
      if UniqueIds(s) {
        DeleteOneKeepsIdsUnique(mid, ByNoteIdAndUser(ids[|ids| - 1], owner));
      }
      assert forall id :: id in init ==> id in ids;
    }
  }
}

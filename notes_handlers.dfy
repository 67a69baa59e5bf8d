/**
 * The note handlers. Every one of them but `some_note` starts by
 * authenticating: `get_token` on the `Authorization` header, then
 * `compare_jwt` on the token, whose claims give the caller's `userid`. Every
 * update and delete that follows, and every query whose notes are returned,
 * filters on that `userid`. The one exception is the id check of
 * `create_note`, which looks the fresh id up among every user's notes; it
 * returns no note and only decides CONFLICT.
 *
 * `compare_jwt` and the database's evaluation of a `$regex` are opaque: they
 * are functions the service is built with. Each call to the database driver
 * may answer with an error; the handlers turn that into
 * INTERNAL_SERVER_ERROR or, in `delete_notes`, skip the id.
 */
module NotesHandlers {
  import opened Wrappers
  import opened Http
  import opened NotesTable
  import opened TokenHeader
  import opened Driver
  import MongoHealth
  import RandomIds

  /** The JSON bodies of the answers. */
  datatype Body =
    | NoteList(notes: seq<Note>)
    | OneNote(note: Note)
    | Message(response: string)

  datatype Response = Response(status: StatusCode, body: Body)

  /** What a handler returns: `Result<(StatusCode, Json<Value>), StatusCode>`. */
  type Reply = Result<Response, StatusCode>

  /** The `Authorization` header of a request, if it has one. */
  type Header = Option<seq<Byte>>

  /** The body of `create_note`. */
  datatype CreateNote = CreateNote(title: string, priority: U32, text: string)

  /** The body of `update_note`. */
  datatype UpdateNote = UpdateNote(noteId: string, title: string, priority: U32, text: string)

  const NoteCreated: string := "Note created succesfully"
  const NoteDeleted: string := "Succesfully deleted"
  const AllNotesDeleted: string := "All notes were succesfully deleted"
  const AllOwnNotesDeleted: string := "ALl notes deleted succesfully"
  const NoteUpdated: string := "Note updated succesfully"

  /**
   * The authentication every protected handler starts with: `get_token`,
   * then `compare_jwt` on the token, whose claims give the caller's `userid`.
   * A request without the header is a bad request, and authentication fails
   * with one of three statuses only.
   */
  function Authenticate(authorization: Header, compareJwt: string -> Option<string>): (r: Result<string, StatusCode>)
    ensures authorization.None? ==> r == Err(BadRequest400)
    ensures r.Err? ==> r.error in {BadRequest400, Unauthorized401, InternalServerError500}
  {
    match GetToken(authorization)
    case Err(status) => Err(status)
    case Ok(token) =>
      match compareJwt(token)
      case None => Err(Unauthorized401)
      case Some(userid) => Ok(userid)
  }

  /**
   * A `get_token` failure is answered with its own status, a `compare_jwt`
   * failure with UNAUTHORIZED, and otherwise the caller is the `userid` of
   * the claims. So UNAUTHORIZED means a token was read and refused.
   */
  lemma AuthenticateOutcomes(authorization: Header, compareJwt: string -> Option<string>)
    ensures GetToken(authorization).Err? ==> Authenticate(authorization, compareJwt) == Err(GetToken(authorization).error)
    ensures GetToken(authorization).Ok? ==>
      match compareJwt(GetToken(authorization).value)
      case None => Authenticate(authorization, compareJwt) == Err(Unauthorized401)
      case Some(userid) => Authenticate(authorization, compareJwt) == Ok(userid)
    ensures Authenticate(authorization, compareJwt) == Err(Unauthorized401) ==>
      GetToken(authorization).Ok? && compareJwt(GetToken(authorization).value).None?
  {
  }

  /**
   * The `$regex` pattern `some_note` builds around the phrase: the phrase,
   * unchanged, between two `.*`, so a title matches when it holds the phrase
   * anywhere.
   */
  function SearchPattern(phrase: string): (r: string)
    ensures |r| == |phrase| + 4
    ensures r[..2] == ".*" && r[|r| - 2..] == ".*"
    ensures r[2..|r| - 2] == phrase
  {
    ".*" + phrase + ".*"
  }

  /** The notes of `user` whose title the database's regex engine matches against `pattern`, in table order. */
  function TitleSearch(s: seq<Note>, user: string, pattern: string, titleMatches: (string, string) -> bool): (r: seq<Note>)
    ensures forall n :: n in r <==> n in s && n.user == user && titleMatches(n.title, pattern)
  {
    if s == [] then
      []
    else
      (if s[0].user == user && titleMatches(s[0].title, pattern) then [s[0]] else [])
      + TitleSearch(s[1..], user, pattern, titleMatches)
  }

  /** `l` is the notes of `s`, newest first. */
  ghost predicate IsNewestFirstOf(l: seq<Note>, s: seq<Note>) {
    SortedByDateDesc(l) && multiset(l) == multiset(s)
  }

  /**
   * The possible answers of a listing handler whose query selects `l`: the
   * driver failed, or nothing was found, or the found notes newest first.
   */
  ghost predicate IsListingReply(r: Reply, l: seq<Note>) {
    || r == Err(InternalServerError500)
    || (l == [] && r == Err(NoContent204))
    || (l != [] && r.Ok? && r.value.status == Ok200 && r.value.body.NoteList? && IsNewestFirstOf(r.value.body.notes, l))
  }

  /** The closing `match` of `delete_notes`, on how many deletions the driver confirmed and how many it refused. */
  function DeleteNotesReply(deleted: nat, notDeleted: nat): (r: Reply)
    ensures r == Err(NotFound404) <==> deleted == 0
    ensures r.Err? ==> r.error == NotFound404
    ensures r.Ok? ==> r.value.status == Ok200 && r.value.body.Message?
    ensures r.Ok? ==> (r.value.body.response == AllNotesDeleted <==> notDeleted == 0)
  {
    if deleted == 0 then
      Err(NotFound404)
    else if notDeleted == 0 then
      Ok(Response(Ok200, Message(AllNotesDeleted)))
    else
      var counts := Text.DecimalString(deleted) + " notes deleted and " + Text.DecimalString(notDeleted) + " cannot be deleted";
      assert counts[0] != AllNotesDeleted[0];
      Ok(Response(Ok200, Message(counts)))
  }

  /**
   * The `while let` loop both listing handlers drain a cursor with, pushing
   * each note onto a vector. With `fallible`, each `try_next` may answer with
   * an error, which ends the loop with `ok` false (`some_note`); otherwise the
   * loop cannot fail (`get_notes` unwraps).
   */
  method DrainCursor(cursor: seq<Note>, fallible: bool) returns (ok: bool, all: seq<Note>)
    ensures !fallible ==> ok
    ensures ok ==> all == cursor
  {
    all := [];
    var i := 0;
    while i < |cursor|
      invariant 0 <= i <= |cursor|
      invariant all == cursor[..i]
    {
      if fallible {
        ok := DriverCall();
        if !ok {
          return;
        }
      }
      all := all + [cursor[i]];
      i := i + 1;
    }
    ok := true;
  }

  class NotesService {
    /** The `notes` collection. */
    var notes: seq<Note>
    /** `compare_jwt`: the `userid` in the claims of a valid token. */
    const compareJwt: string -> Option<string>
    /** The database's `$regex` test of a title against a pattern. */
    const titleMatches: (string, string) -> bool

    ghost predicate Valid()
      reads this
    {
      UniqueIds(notes)
    }

    constructor (compareJwt: string -> Option<string>, titleMatches: (string, string) -> bool)
      ensures Valid() && notes == []
      ensures this.compareJwt == compareJwt && this.titleMatches == titleMatches
    {
      notes := [];
      this.compareJwt := compareJwt;
      this.titleMatches := titleMatches;
    }

    /** `get_notes`: the caller's notes, newest first; NO_CONTENT when there are none. */
    method GetNotes(authorization: Header) returns (r: Reply)
      ensures Authenticate(authorization, compareJwt).Err? ==> r == Err(Authenticate(authorization, compareJwt).error)
      ensures Authenticate(authorization, compareJwt).Ok? ==>
        IsListingReply(r, NotesOf(notes, Authenticate(authorization, compareJwt).value))
    {
      var claims := Authenticate(authorization, compareJwt);
      if claims.Err? {
        return Err(claims.error);
      }
      var userid := claims.value;

      var ok := DriverCall();
      if !ok {
        return Err(InternalServerError500);
      }
      var mine := NotesOf(notes, userid);
      var cursor := SortByDateDesc(mine);
      assert |cursor| == |multiset(cursor)| == |multiset(mine)| == |mine|;
      var drained, result := DrainCursor(cursor, false);

      if |result| < 1 {
        assert mine == [];
        return Err(NoContent204);
      }
      r := Ok(Response(Ok200, NoteList(result)));
      assert IsListingReply(r, mine);
    }

    /**
     * `create_note`: a note with a fresh `random_id`, the caller as owner and
     * the request's content; CONFLICT when the id is already taken.
     */
    method CreateNote(authorization: Header, req: CreateNote, draws: seq<RandomIds.Draw>, now: Date) returns (r: Reply)
      requires Valid()
      requires |draws| == RandomIds.IdLength && forall k :: 0 <= k < |draws| ==> RandomIds.IsDraw(draws[k])
      modifies this
      ensures Valid()
      ensures Authenticate(authorization, compareJwt).Err? ==>
        r == Err(Authenticate(authorization, compareJwt).error) && notes == old(notes)
      ensures Authenticate(authorization, compareJwt).Ok? ==>
        var userid := Authenticate(authorization, compareJwt).value;
        var note := Note(RandomIds.IdFromDraws(draws), req.title, req.priority, req.text, userid, now);
        && OnlyOwnerTouched(old(notes), notes, userid)
        && (r.Ok? ==> r.value == Response(Ok200, Message(NoteCreated)) && notes == old(notes) + [note])
        && (r.Err? ==> notes == old(notes) && (r.error == Conflict409 || r.error == InternalServerError500))
        && (r == Err(Conflict409) ==> FindOne(old(notes), ByNoteId(note.noteId)).Some?)
        && (FindOne(old(notes), ByNoteId(note.noteId)).Some? ==> r.Err?)
    {
      var claims := Authenticate(authorization, compareJwt);
      if claims.Err? {
        return Err(claims.error);
      }
      var noteId := RandomIds.RandomId(draws);
      var data := Note(noteId, req.title, req.priority, req.text, claims.value, now);

      var ok := DriverCall();
      if !ok {
        return Err(InternalServerError500);
      }
      if FindOne(notes, ByNoteId(data.noteId)).Some? {
        return Err(Conflict409);
      }

      ok := DriverCall();
      if !ok {
        return Err(InternalServerError500);
      }
      InsertFreshKeepsIdsUnique(notes, data);
      InsertTouchesOnlyOwner(notes, data, data.user);
      notes := notes + [data];
      return Ok(Response(Ok200, Message(NoteCreated)));
    }

    /**
     * `some_note`: the caller's notes whose title matches `.*<phrase>.*`,
     * newest first. The phrase is vetted before the token is even read.
     */
    method SomeNote(authorization: Header, notePhrase: string) returns (r: Reply)
      ensures MongoHealth.HasSpecialChar(notePhrase) || notePhrase == [] ==> r == Err(BadRequest400)
      ensures !MongoHealth.HasSpecialChar(notePhrase) && notePhrase != [] ==>
        && (Authenticate(authorization, compareJwt).Err? ==> r == Err(Authenticate(authorization, compareJwt).error))
        && (Authenticate(authorization, compareJwt).Ok? ==>
          IsListingReply(r, TitleSearch(notes, Authenticate(authorization, compareJwt).value, SearchPattern(notePhrase), titleMatches)))
    {
      var unsafe := MongoHealth.MongoQueryError(notePhrase);
      if unsafe {
        return Err(BadRequest400);
      }
      if |notePhrase| < 1 {
        return Err(BadRequest400);
      }
      var claims := Authenticate(authorization, compareJwt);
      if claims.Err? {
        return Err(claims.error);
      }
      var pattern := SearchPattern(notePhrase);

      var ok := DriverCall();
      if !ok {
        return Err(InternalServerError500);
      }
      var found := TitleSearch(notes, claims.value, pattern, titleMatches);
      var cursor := SortByDateDesc(found);
      assert |cursor| == |multiset(cursor)| == |multiset(found)| == |found|;
      var drained, allResults := DrainCursor(cursor, true);
      if !drained {
        return Err(InternalServerError500);
      }

      if |allResults| < 1 {
        assert found == [];
        return Err(NoContent204);
      }
      r := Ok(Response(Ok200, NoteList(allResults)));
      assert IsListingReply(r, found);
    }

    /** `spec_note`: the caller's note with the given id; NOT_FOUND when the caller has none. */
    method SpecNote(authorization: Header, noteId: string) returns (r: Reply)
      ensures Authenticate(authorization, compareJwt).Err? ==> r == Err(Authenticate(authorization, compareJwt).error)
      ensures Authenticate(authorization, compareJwt).Ok? ==>
        var found := FindOne(notes, ByNoteIdAndUser(noteId, Authenticate(authorization, compareJwt).value));
        || r == Err(InternalServerError500)
        || (found.None? && r == Err(NotFound404))
        || (found.Some? && r == Ok(Response(Ok200, OneNote(found.value))))
    {
      var claims := Authenticate(authorization, compareJwt);
      if claims.Err? {
        return Err(claims.error);
      }

      var ok := DriverCall();
      if !ok {
        return Err(InternalServerError500);
      }
      var found := FindOne(notes, ByNoteIdAndUser(noteId, claims.value));
      if found.None? {
        return Err(NotFound404);
      }
      return Ok(Response(Ok200, OneNote(found.value)));
    }

    /** `delete_spec_note`: remove the caller's note with the given id; NOT_FOUND when the caller has none. */
    method DeleteSpecNote(authorization: Header, noteId: string) returns (r: Reply)
      requires Valid()
      modifies this
      ensures Valid()
      ensures Authenticate(authorization, compareJwt).Err? ==>
        r == Err(Authenticate(authorization, compareJwt).error) && notes == old(notes)
      ensures Authenticate(authorization, compareJwt).Ok? ==>
        var userid := Authenticate(authorization, compareJwt).value;
        var filter := ByNoteIdAndUser(noteId, userid);
        && OnlyOwnerTouched(old(notes), notes, userid)
        && (r.Ok? ==> r.value == Response(Ok200, Message(NoteDeleted)) && notes == DeleteOne(old(notes), filter))
        && (r.Err? ==> notes == old(notes) && (r.error == NotFound404 || r.error == InternalServerError500))
        && (r == Err(NotFound404) <==> FindOne(old(notes), filter).None? && r != Err(InternalServerError500))
        && (FindOne(old(notes), filter).None? ==> r.Err?)
    {
      var claims := Authenticate(authorization, compareJwt);
      if claims.Err? {
        return Err(claims.error);
      }
      var filters := ByNoteIdAndUser(noteId, claims.value);

      var ok := DriverCall();
      if !ok {
        return Err(InternalServerError500);
      }
      if FindOne(notes, filters).None? {
        return Err(NotFound404);
      }

      ok := DriverCall();
      if !ok {
        return Err(InternalServerError500);
      }
      DeleteOneTouchesOnlyOwner(notes, noteId, claims.value);
      DeleteOneKeepsIdsUnique(notes, filters);
      notes := DeleteOne(notes, filters);
      // The `false` arm of the closing match cannot be reached.
      return Ok(Response(Ok200, Message(NoteDeleted)));
    }

    /**
     * The first loop of `delete_notes`: one `find_one` on `(id, caller)` per
     * requested id, collecting the ids found. A failed lookup skips the id.
     */
    method LookUpOwned(s: seq<Note>, notesId: seq<string>, userid: string) returns (toDelete: seq<string>)
      ensures multiset(toDelete) <= multiset(OwnedIds(s, notesId, userid))
    {
      toDelete := [];
      var errored: seq<string> := [];
      for k := 0 to |notesId|
        invariant multiset(toDelete) <= multiset(OwnedIds(s, notesId[..k], userid))
      {
        var note := notesId[k];
        assert notesId[..k + 1][..k] == notesId[..k];
        var ok := DriverCall();
        if !ok {
          continue;
        }
        var found := FindOne(s, ByNoteIdAndUser(note, userid));
        if found.Some? {
          toDelete := toDelete + [found.value.noteId];
        } else {
          errored := errored + [note];
          continue;
        }
      }
      assert notesId[..|notesId|] == notesId;
    }

    /**
     * The second loop of `delete_notes`: one `delete_one` on `(id, caller)`
     * per id found, splitting the ids into those the driver confirmed and
     * those it refused.
     */
    method DeleteAttempts(toDelete: seq<string>, userid: string) returns (deletedIds: seq<string>, notDeletedIds: seq<string>)
      modifies this
      ensures multiset(deletedIds) + multiset(notDeletedIds) == multiset(toDelete)
      ensures notes == DeleteEach(old(notes), deletedIds, userid)
    {
      deletedIds, notDeletedIds := [], [];
      for k := 0 to |toDelete|
        invariant multiset(deletedIds) + multiset(notDeletedIds) == multiset(toDelete[..k])
        invariant notes == DeleteEach(old(notes), deletedIds, userid)
      {
        var delete := toDelete[k];
        assert toDelete[..k + 1] == toDelete[..k] + [delete];
        var ok := DriverCall();
        if ok {
          notes := DeleteOne(notes, ByNoteIdAndUser(delete, userid));
          assert (deletedIds + [delete])[..|deletedIds|] == deletedIds;
          deletedIds := deletedIds + [delete];
        } else {
          notDeletedIds := notDeletedIds + [delete];
        }
      }
      assert toDelete[..|toDelete|] == toDelete;
    }

    /**
     * `delete_notes`: for each requested id the caller owns, one `delete_one`.
     * Ids the caller does not own are skipped, as are ids whose lookup fails.
     * `attempted` holds the ids the lookups found, and the deletions tried;
     * `deleted` and `notDeleted` split them into those the driver confirmed
     * and those it refused.
     */
    method DeleteNotes(authorization: Header, notesId: seq<string>)
      returns (r: Reply, ghost deleted: seq<string>, ghost notDeleted: seq<string>, ghost attempted: seq<string>)
      requires Valid()
      modifies this
      ensures Valid()
      ensures Authenticate(authorization, compareJwt).Err? ==>
        r == Err(Authenticate(authorization, compareJwt).error) && notes == old(notes)
      ensures Authenticate(authorization, compareJwt).Ok? ==>
        var userid := Authenticate(authorization, compareJwt).value;
        && r == DeleteNotesReply(|deleted|, |notDeleted|)
        && multiset(deleted) + multiset(notDeleted) == multiset(attempted)
        && multiset(attempted) <= multiset(OwnedIds(old(notes), notesId, userid))
        && |deleted| + |notDeleted| <= |notesId|
        && (forall id :: id in deleted || id in notDeleted ==>
              id in notesId && FindOne(old(notes), ByNoteIdAndUser(id, userid)).Some?)
        && notes == DeleteEach(old(notes), deleted, userid)
        && OnlyOwnerTouched(old(notes), notes, userid)
        && (forall n :: n in notes ==> n in old(notes))
        && (forall n :: n in old(notes) && !(n.user == userid && n.noteId in notesId) ==> n in notes)
    {
      deleted, notDeleted, attempted := [], [], [];
      var claims := Authenticate(authorization, compareJwt);
      if claims.Err? {
        return Err(claims.error), deleted, notDeleted, attempted;
      }
      var userid := claims.value;

      var toDelete := LookUpOwned(notes, notesId, userid);
      var deletedIds, notDeletedIds := DeleteAttempts(toDelete, userid);
      AttemptsAreOwnedRequests(old(notes), notesId, userid, deletedIds, notDeletedIds, toDelete);
      DeleteEachTouchesOnlyOwner(old(notes), deletedIds, userid);
      deleted, notDeleted, attempted := deletedIds, notDeletedIds, toDelete;
      r := DeleteNotesReply(|deletedIds|, |notDeletedIds|);
    }

    /** `delete_all_notes`: remove every note of the caller, and only those. */
    method DeleteAllNotes(authorization: Header) returns (r: Reply)
      requires Valid()
      modifies this
      ensures Valid()
      ensures Authenticate(authorization, compareJwt).Err? ==>
        r == Err(Authenticate(authorization, compareJwt).error) && notes == old(notes)
      ensures Authenticate(authorization, compareJwt).Ok? ==>
        var userid := Authenticate(authorization, compareJwt).value;
        && OnlyOwnerTouched(old(notes), notes, userid)
        && (r.Ok? ==> r.value == Response(Ok200, Message(AllOwnNotesDeleted)) && notes == DeleteMany(old(notes), ByUser(userid))
                      && NotesOf(notes, userid) == [])
        && (r.Err? ==> r.error == InternalServerError500 && notes == old(notes))
    {
      var claims := Authenticate(authorization, compareJwt);
      if claims.Err? {
        return Err(claims.error);
      }
      var filters := ByUser(claims.value);

      var ok := DriverCall();
      if !ok {
        return Err(InternalServerError500);
      }
      DeleteManyTouchesOnlyOwner(notes, claims.value);
      DeleteManyKeepsIdsUnique(notes, filters);
      notes := DeleteMany(notes, filters);
      return Ok(Response(Ok200, Message(AllOwnNotesDeleted)));
    }

    /**
     * `update_note`: replace title, priority and text of the caller's note
     * with the given id; NOT_FOUND when the caller has none.
     */
    method UpdateNote(authorization: Header, req: UpdateNote) returns (r: Reply)
      requires Valid()
      modifies this
      ensures Valid()
      ensures Authenticate(authorization, compareJwt).Err? ==>
        r == Err(Authenticate(authorization, compareJwt).error) && notes == old(notes)
      ensures Authenticate(authorization, compareJwt).Ok? ==>
        var userid := Authenticate(authorization, compareJwt).value;
        var filter := ByNoteIdAndUser(req.noteId, userid);
        && OnlyOwnerTouched(old(notes), notes, userid)
        && (r.Ok? ==> r.value == Response(Ok200, Message(NoteUpdated))
                      && notes == UpdateOne(old(notes), filter, req.title, req.priority, req.text)
                      && FindOne(old(notes), filter).Some?)
        && (r.Err? ==> notes == old(notes) && (r.error == NotFound404 || r.error == InternalServerError500))
        && (r == Err(NotFound404) ==> FindOne(old(notes), filter).None?)
        && (FindOne(old(notes), filter).None? ==> r.Err?)
    {
      var claims := Authenticate(authorization, compareJwt);
      if claims.Err? {
        return Err(claims.error);
      }
      var filters := ByNoteIdAndUser(req.noteId, claims.value);

      var ok := DriverCall();
      if !ok {
        return Err(InternalServerError500);
      }
      if FindOne(notes, filters).None? {
        return Err(NotFound404);
      }

      ok := DriverCall();
      if !ok {
        return Err(InternalServerError500);
      }
      UpdateOneTouchesOnlyOwner(notes, req.noteId, claims.value, req.title, req.priority, req.text);
      UpdateOneKeepsIdsUnique(notes, filters, req.title, req.priority, req.text);
      notes := UpdateOne(notes, filters, req.title, req.priority, req.text);
      return Ok(Response(Ok200, Message(NoteUpdated)));
    }
  }
}

/** The relational store behind a sqlmodel `Session`: the `users` table
    (models/UserModel.py) and the `legal_document_bookmark` table
    (models/LegalDocumentBookmarkModel.py), with the constraints PostgreSQL
    enforces on commit: unique email, fullname and google_sub, and the
    bookmark's foreign key to `users.id`. */
module Tables {
  import opened Builtins
  import opened Errors

  /** A passlib bcrypt hash. Hashing is not modelled; a digest only records
      which password it accepts. */
  datatype Digest = Bcrypt(accepts: string)

  /** `get_hashed_password(password)`. */
  function HashPassword(password: string): (r: Digest)
    ensures VerifyPassword(password, Some(r))
    ensures forall other :: VerifyPassword(other, Some(r)) ==> other == password
  {
    Bcrypt(password)
  }

  /** `verify_password(password, hashed)`. passlib answers False, without
      raising, when the stored hash is None. */
  predicate VerifyPassword(password: string, hashed: Option<Digest>) {
    hashed.Some? && hashed.value.accepts == password
  }

  /** A row of `users`. The password column holds a digest, never a plaintext. */
  datatype User = User(
    id: nat,
    email: string,
    fullname: string,
    password: Option<Digest>,
    googleSub: Option<string>)

  /** A row of `legal_document_bookmark`. `documentId` is not checked against the index. */
  datatype Bookmark = Bookmark(id: nat, userId: int, documentId: string)

  /** Two rows collide on a unique column (NULL google_sub never collides). */
  predicate Collide(u: User, v: User) {
    u.email == v.email || u.fullname == v.fullname || (u.googleSub.Some? && u.googleSub == v.googleSub)
  }

  /** The table may take `candidate` as a new row. */
  predicate Admits(users: seq<User>, candidate: User) {
    forall u :: u in users ==> !Collide(u, candidate)
  }

  /** No other row than the `k`-th already holds google_sub `sub`. */
  predicate GoogleSubFree(users: seq<User>, k: nat, sub: string) {
    forall j :: 0 <= j < |users| && j != k ==> users[j].googleSub != Some(sub)
  }

  /** The unique and primary-key constraints of `users`. */
  ghost predicate UniqueColumns(users: seq<User>) {
    forall i, j :: 0 <= i < j < |users| ==> users[i].id != users[j].id && !Collide(users[i], users[j])
  }

  /** `select(...).where(p).first()`: the index of the first row satisfying `p`. */
  function FirstIndex<T>(rows: seq<T>, p: T -> bool): (r: Option<nat>)
    ensures r.Some? ==> r.value < |rows| && p(rows[r.value])
    ensures r.Some? ==> forall j :: 0 <= j < r.value ==> !p(rows[j])
    ensures r.None? ==> forall j :: 0 <= j < |rows| ==> !p(rows[j])
  {
    if |rows| == 0 then None
    else if p(rows[0]) then Some(0)
    else match FirstIndex(rows[1..], p)
      case None => None
      case Some(i) => Some(i + 1)
  }

  /** `select(...).where(p).first()`: the first row satisfying `p`, or None. */
  function SelectFirst<T(!new)>(rows: seq<T>, p: T -> bool): (r: Option<T>)
    ensures r.Some? ==> r.value in rows && p(r.value)
    ensures r.None? <==> forall x :: x in rows ==> !p(x)
    ensures r.Some? ==> exists i :: 0 <= i < |rows| && rows[i] == r.value && forall j :: 0 <= j < i ==> !p(rows[j])
  {
    match FirstIndex(rows, p)
    case None => None
    case Some(i) => Some(rows[i])
  }

  /** `select(...).where(p).all()`: every row satisfying `p`, in table order. */
  function SelectAll<T(!new)>(rows: seq<T>, p: T -> bool): (r: seq<T>)
    ensures forall x :: x in r <==> x in rows && p(x)
    ensures |r| <= |rows|
  {
    if |rows| == 0 then []
    else (if p(rows[0]) then [rows[0]] else []) + SelectAll(rows[1..], p)
  }

  /** A row appended to the table is selected last, when it satisfies `p`. */
  lemma {:induction false} SelectAllAppend<T(!new)>(rows: seq<T>, x: T, p: T -> bool)
    ensures SelectAll(rows + [x], p) == SelectAll(rows, p) + (if p(x) then [x] else [])
    decreases |rows|
  {
    if |rows| > 0 {
      assert (rows + [x])[1..] == rows[1..] + [x];
      SelectAllAppend(rows[1..], x, p);
    }
  }

  /** The detail of the 422 raised for an `SQLAlchemyError`. */
  const INTEGRITY_ERROR := "IntegrityError"

  class Session {
    var users: seq<User>
    var bookmarks: seq<Bookmark>
    /** The id sequences: PostgreSQL draws a value on every insert, also on one that fails. */
    var userSeq: nat
    var bookmarkSeq: nat

    ghost predicate Valid()
      reads this
    {
      && UniqueColumns(users)
      && (forall u :: u in users ==> u.id < userSeq)
      && (forall b :: b in bookmarks ==> b.id < bookmarkSeq)
      && (forall i, j :: 0 <= i < j < |bookmarks| ==> bookmarks[i].id != bookmarks[j].id)
    }

    constructor ()
      ensures Valid() && users == [] && bookmarks == []
    {
      users, bookmarks := [], [];
      userSeq, bookmarkSeq := 0, 0;
    }

    /** `session.add(User(...)); session.commit()`: the row is stored, or a
        unique column collides and the commit fails with 422. */
    method AddUser(email: string, fullname: string, password: Option<Digest>, googleSub: Option<string>)
      returns (r: Result<User, Error>)
      requires Valid()
      modifies this
      ensures Valid()
      ensures bookmarks == old(bookmarks) && bookmarkSeq == old(bookmarkSeq)
      ensures userSeq == old(userSeq) + 1
      ensures var u := User(old(userSeq), email, fullname, password, googleSub);
        if Admits(old(users), u) then r == Ok(u) && users == old(users) + [u]
        else r == Err(HttpError(UNPROCESSABLE_ENTITY, INTEGRITY_ERROR)) && users == old(users)
    {
      var u := User(userSeq, email, fullname, password, googleSub);
      userSeq := userSeq + 1;
      if Admits(users, u) {
        users := users + [u];
        r := Ok(u);
      } else {
        r := Err(HttpError(UNPROCESSABLE_ENTITY, INTEGRITY_ERROR));
      }
    }

    /** `db_user.google_sub = sub; session.commit()` on the `k`-th row. */
    method SetGoogleSub(k: nat, sub: string) returns (r: Result<User, Error>)
      requires Valid() && k < |users|
      modifies this
      ensures Valid()
      ensures bookmarks == old(bookmarks) && bookmarkSeq == old(bookmarkSeq) && userSeq == old(userSeq)
      ensures var u := old(users)[k].(googleSub := Some(sub));
        if GoogleSubFree(old(users), k, sub) then r == Ok(u) && users == old(users)[k := u]
        else r == Err(HttpError(UNPROCESSABLE_ENTITY, INTEGRITY_ERROR)) && users == old(users)
    {
      var u := users[k].(googleSub := Some(sub));
      if GoogleSubFree(users, k, sub) {
        users := users[k := u];
        r := Ok(u);
      } else {
        r := Err(HttpError(UNPROCESSABLE_ENTITY, INTEGRITY_ERROR));
      }
    }

    /** `session.add(LegalDocumentBookmark(...)); session.commit()`. `user_id`
        is NOT NULL and references `users.id`; anything else fails with 422. */
    method AddBookmark(userId: Value, documentId: string) returns (r: Result<Bookmark, Error>)
      requires Valid()
      modifies this
      ensures Valid()
      ensures users == old(users) && userSeq == old(userSeq) && bookmarkSeq == old(bookmarkSeq) + 1
      ensures if userId.Int? && exists u :: u in old(users) && u.id == userId.i
        then r == Ok(Bookmark(old(bookmarkSeq), userId.i, documentId)) && bookmarks == old(bookmarks) + [r.value]
        else r == Err(HttpError(UNPROCESSABLE_ENTITY, INTEGRITY_ERROR)) && bookmarks == old(bookmarks)
    {
      var id := bookmarkSeq;
      bookmarkSeq := bookmarkSeq + 1;
      if userId.Int? && exists u :: u in users && u.id == userId.i {
        var b := Bookmark(id, userId.i, documentId);
        bookmarks := bookmarks + [b];
        r := Ok(b);
      } else {
        r := Err(HttpError(UNPROCESSABLE_ENTITY, INTEGRITY_ERROR));
      }
    }
  }
}

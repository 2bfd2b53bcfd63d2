/** The three Supabase tables the handlers write, as in-memory tables: rows
    in a sequence, each statement the handlers issue (insert, filtered
    delete, upsert on a key, filtered update) as a function on the rows,
    and a class per table whose methods apply that function in place. */
module Supabase {
  import opened Js

  /** PostgreSQL's refusal of a row whose primary key is missing. */
  const MissingKeyMessage: string := "null value in column \"id\" of relation \"profiles\" violates not-null constraint"

  // ---------------------------------------------------------------- user_albums

  /** A row of `user_albums`; `id` is generated by the table on insert. */
  datatype AlbumRow = AlbumRow(
    id: nat,
    userId: string,
    albumId: Json,
    albumName: Json,
    artistName: Json,
    albumImage: Json)

  /** The row as `.select()` returns it. */
  function AlbumJson(row: AlbumRow): Json
  {
    JObj(map[
      "id" := JNum(row.id),
      "user_id" := JStr(row.userId),
      "album_id" := row.albumId,
      "album_name" := row.albumName,
      "artist_name" := row.artistName,
      "album_image" := row.albumImage])
  }

  /** Every generated id is below the table's next id. */
  ghost predicate IdsBelow(rows: seq<AlbumRow>, bound: nat)
  {
    forall x :: x in rows ==> x.id < bound
  }

  /** No two rows share an id. */
  ghost predicate IdsUnique(rows: seq<AlbumRow>)
  {
    forall i, j :: 0 <= i < |rows| && 0 <= j < |rows| && rows[i].id == rows[j].id ==> i == j
  }

  /** PostgreSQL's refusal of a filter value that is not an integer. */
  const InvalidIdMessage: string := "invalid input syntax for type bigint"

  /** A non-empty run of decimal digits. */
  predicate IsDigits(s: string)
  {
    |s| > 0 && forall i :: 0 <= i < |s| ==> '0' <= s[i] <= '9'
  }

  /** The value of a run of decimal digits, leading zeros allowed. */
  function DigitsValue(s: string): nat
    requires forall i :: 0 <= i < |s| ==> '0' <= s[i] <= '9'
  {
    if |s| == 0 then 0
    else DigitsValue(s[..|s| - 1]) * 10 + (s[|s| - 1] as int - '0' as int)
  }

  /** How a `bigint` column reads filter text: an optional sign, then
      decimal digits. None is PostgreSQL's refusal. */
  function ParseBigint(s: string): (v: Option<int>)
    ensures IsDigits(s) ==> v == Some(DigitsValue(s))
    ensures v.Some? <==> IsDigits(s) || (|s| > 1 && (s[0] == '-' || s[0] == '+') && IsDigits(s[1..]))
    ensures |s| > 1 && s[0] == '-' && IsDigits(s[1..]) ==> v == Some(0 - DigitsValue(s[1..]) as int)
    ensures |s| > 1 && s[0] == '+' && IsDigits(s[1..]) ==> v == Some(DigitsValue(s[1..]))
    ensures |s| == 0 ==> v.None?
  {
    if IsDigits(s) then Some(DigitsValue(s))
    else if |s| > 1 && s[0] == '-' && IsDigits(s[1..]) then Some(0 - DigitsValue(s[1..]) as int)
    else if |s| > 1 && s[0] == '+' && IsDigits(s[1..]) then Some(DigitsValue(s[1..]))
    else None
  }

  /** `String(n)` for a natural number: its decimal digits, no leading zero. */
  function DecimalText(n: nat): string
  {
    (if n < 10 then "" else DecimalText(n / 10)) + [('0' as int + n % 10) as char]
  }

  /** Reading the decimal text of a number gives the number back. */
  lemma {:induction false} ParseDecimalText(n: nat)
    ensures IsDigits(DecimalText(n)) && DigitsValue(DecimalText(n)) == n
  {
    var last := ('0' as int + n % 10) as char;
    var prefix := if n < 10 then "" else DecimalText(n / 10);
    assert DecimalText(n) == prefix + [last];
    if n >= 10 {
      ParseDecimalText(n / 10);
    }
    AppendDigit(prefix, last);
    assert DigitsValue(prefix) == n / 10;
  }

  /** Appending a digit to a run of digits: the value shifts one place. */
  lemma AppendDigit(prefix: string, d: char)
    requires forall i :: 0 <= i < |prefix| ==> '0' <= prefix[i] <= '9'
    requires '0' <= d <= '9'
    ensures IsDigits(prefix + [d])
    ensures DigitsValue(prefix + [d]) == DigitsValue(prefix) * 10 + (d as int - '0' as int)
  {
    var s := prefix + [d];
    assert s[..|s| - 1] == prefix;
    forall i | 0 <= i < |s| ensures '0' <= s[i] <= '9' {
      if i < |prefix| {
        assert s[i] == prefix[i];
      }
    }
  }

  /** The id that `.eq("id", v)` filters on. supabase-js sends the filter
      as the text `id=eq.` followed by `String(v)`: a number is read as
      itself and a string as bigint text; `undefined`, `null`, booleans,
      arrays and objects become text the id column refuses (None). */
  function IdFilter(v: Option<Json>): (id: Option<int>)
    ensures v.None? ==> id.None?
    ensures v.Some? && v.value.JNum? ==> id == Some(v.value.n)
    ensures v.Some? && v.value.JStr? ==> id == ParseBigint(v.value.s)
    ensures v.Some? && !v.value.JNum? && !v.value.JStr? ==> id.None?
  {
    match v
    case Some(JNum(n)) => Some(n)
    case Some(JStr(s)) => ParseBigint(s)
    case _ => None
  }

  /** `.eq("id", id).eq("user_id", owner)`. */
  predicate Matches(row: AlbumRow, id: int, owner: string)
  {
    row.id == id && row.userId == owner
  }

  /** `delete().eq("id", id).eq("user_id", owner)`: the rows that survive. */
  function DeleteWhere(rows: seq<AlbumRow>, id: int, owner: string): (r: seq<AlbumRow>)
    ensures forall x :: x in r <==> x in rows && !Matches(x, id, owner)
    ensures |r| <= |rows|
  {
    if |rows| == 0 then []
    else if Matches(rows[0], id, owner) then DeleteWhere(rows[1..], id, owner)
    else [rows[0]] + DeleteWhere(rows[1..], id, owner)
  }

  /** A delete that matches nothing leaves the table exactly as it was. */
  lemma {:induction false} DeleteWithoutMatchIsIdentity(rows: seq<AlbumRow>, id: int, owner: string)
    requires forall x :: x in rows ==> !Matches(x, id, owner)
    ensures DeleteWhere(rows, id, owner) == rows
  {
    if |rows| > 0 {
      DeleteWithoutMatchIsIdentity(rows[1..], id, owner);
    }
  }

  /** The filtered delete keeps the surviving rows in order, so generated
      ids stay unique. */
  lemma {:induction false} DeleteKeepsIdsUnique(rows: seq<AlbumRow>, id: int, owner: string)
    requires IdsUnique(rows)
    ensures IdsUnique(DeleteWhere(rows, id, owner))
  {
    if |rows| > 0 {
      var tail := rows[1..];
      assert IdsUnique(tail) by {
        forall i, j | 0 <= i < |tail| && 0 <= j < |tail| && tail[i].id == tail[j].id
          ensures i == j
        {
          assert rows[i + 1].id == rows[j + 1].id;
        }
      }
      DeleteKeepsIdsUnique(tail, id, owner);
      var rest := DeleteWhere(tail, id, owner);
      if !Matches(rows[0], id, owner) {
        forall x | x in rest ensures x.id != rows[0].id {
          var k :| 0 <= k < |tail| && tail[k] == x;
          assert rows[k + 1] == x;
        }
      }
    }
  }

  /** With unique ids, a delete by id removes at most one row. */
  lemma {:induction false} DeleteRemovesAtMostOne(rows: seq<AlbumRow>, id: int, owner: string)
    requires IdsUnique(rows)
    ensures |DeleteWhere(rows, id, owner)| >= |rows| - 1
  {
    if |rows| > 0 {
      var tail := rows[1..];
      if Matches(rows[0], id, owner) {
        forall x | x in tail ensures !Matches(x, id, owner) {
          var k :| 0 <= k < |tail| && tail[k] == x;
          assert rows[k + 1] == x;
        }
        DeleteWithoutMatchIsIdentity(tail, id, owner);
      } else {
        assert IdsUnique(tail) by {
          forall i, j | 0 <= i < |tail| && 0 <= j < |tail| && tail[i].id == tail[j].id
            ensures i == j
          {
            assert rows[i + 1].id == rows[j + 1].id;
          }
        }
        DeleteRemovesAtMostOne(tail, id, owner);
      }
    }
  }

  /** The rows `owner` holds; with `album` given, only those of that album. */
  function CountOwned(rows: seq<AlbumRow>, owner: string, album: Option<Json>): nat
  {
    if |rows| == 0 then 0
    else
      var here := if rows[0].userId == owner && (album.None? || rows[0].albumId == album.value) then 1 else 0;
      here + CountOwned(rows[1..], owner, album)
  }

  /** Appending a row counts it once for its owner and not for anyone else. */
  lemma {:induction false} CountOwnedAppend(rows: seq<AlbumRow>, row: AlbumRow, owner: string, album: Option<Json>)
    ensures CountOwned(rows + [row], owner, album) == CountOwned(rows, owner, album)
      + (if row.userId == owner && (album.None? || row.albumId == album.value) then 1 else 0)
  {
    if |rows| > 0 {
      assert (rows + [row])[1..] == rows[1..] + [row];
      CountOwnedAppend(rows[1..], row, owner, album);
    }
  }

  /** `user_albums` with its id generator. */
  class AlbumsTable {
    var rows: seq<AlbumRow>
    var nextId: nat

    ghost predicate Valid()
      reads this
    {
      IdsBelow(rows, nextId) && IdsUnique(rows)
    }

    constructor ()
      ensures Valid() && rows == [] && nextId == 0
    {
      rows := [];
      nextId := 0;
    }

    /** `insert({...}).select()`: appends one row with a fresh id and returns it. */
    method Insert(userId: string, albumId: Json, albumName: Json, artistName: Json, albumImage: Json)
      returns (row: AlbumRow)
      requires Valid()
      modifies this
      ensures Valid()
      ensures row == AlbumRow(old(nextId), userId, albumId, albumName, artistName, albumImage)
      ensures rows == old(rows) + [row] && nextId == old(nextId) + 1
      ensures forall x :: x in old(rows) ==> x.id != row.id
    {
      row := AlbumRow(nextId, userId, albumId, albumName, artistName, albumImage);
      rows := rows + [row];
      nextId := nextId + 1;
    }

    /** `delete().eq("id", id).eq("user_id", owner)`. */
    method Delete(id: int, owner: string)
      requires Valid()
      modifies this
      ensures Valid()
      ensures rows == DeleteWhere(old(rows), id, owner) && nextId == old(nextId)
    {
      DeleteKeepsIdsUnique(rows, id, owner);
      rows := DeleteWhere(rows, id, owner);
    }
  }

  // ---------------------------------------------------------------- user_consent

  /** A row of `user_consent`, keyed by `spotify_user_id`. */
  datatype ConsentRow = ConsentRow(spotifyUserId: string, consentStatus: string, consentDate: string)

  /** The row stored under `key`, if any. */
  function FindConsent(rows: seq<ConsentRow>, key: string): Option<ConsentRow>
  {
    if |rows| == 0 then None
    else if rows[0].spotifyUserId == key then Some(rows[0])
    else FindConsent(rows[1..], key)
  }

  /** `spotify_user_id` is unique: the conflict target of the upsert. */
  ghost predicate ConsentKeysUnique(rows: seq<ConsentRow>)
  {
    forall i, j :: 0 <= i < |rows| && 0 <= j < |rows| && rows[i].spotifyUserId == rows[j].spotifyUserId ==> i == j
  }

  /** `upsert(row, { onConflict: "spotify_user_id" })`: the row replaces the
      one with its key, or is appended when there is none. */
  function UpsertConsent(rows: seq<ConsentRow>, row: ConsentRow): (r: seq<ConsentRow>)
    ensures FindConsent(r, row.spotifyUserId) == Some(row)
    ensures forall k :: k != row.spotifyUserId ==> FindConsent(r, k) == FindConsent(rows, k)
    ensures |r| == |rows| + (if FindConsent(rows, row.spotifyUserId).None? then 1 else 0)
    ensures forall x :: x in r ==> x == row || x in rows
    ensures forall x :: x in rows && x.spotifyUserId != row.spotifyUserId ==> x in r
  {
    if |rows| == 0 then [row]
    else if rows[0].spotifyUserId == row.spotifyUserId then [row] + rows[1..]
    else [rows[0]] + UpsertConsent(rows[1..], row)
  }

  /** The upsert never duplicates a key. */
  lemma {:induction false} UpsertConsentKeepsKeysUnique(rows: seq<ConsentRow>, row: ConsentRow)
    requires ConsentKeysUnique(rows)
    ensures ConsentKeysUnique(UpsertConsent(rows, row))
  {
    if |rows| > 0 {
      var tail := rows[1..];
      assert ConsentKeysUnique(tail) by {
        forall i, j | 0 <= i < |tail| && 0 <= j < |tail| && tail[i].spotifyUserId == tail[j].spotifyUserId
          ensures i == j
        {
          assert rows[i + 1].spotifyUserId == rows[j + 1].spotifyUserId;
        }
      }
      if rows[0].spotifyUserId == row.spotifyUserId {
        var r := UpsertConsent(rows, row);
        assert r == [row] + tail;
        forall i, j | 0 <= i < |r| && 0 <= j < |r| && r[i].spotifyUserId == r[j].spotifyUserId
          ensures i == j
        {
          assert r[i].spotifyUserId == rows[i].spotifyUserId && r[j].spotifyUserId == rows[j].spotifyUserId;
        }
      } else {
        UpsertConsentKeepsKeysUnique(tail, row);
        var rest := UpsertConsent(tail, row);
        forall x | x in rest ensures x.spotifyUserId != rows[0].spotifyUserId {
          if x != row {
            var k :| 0 <= k < |tail| && tail[k] == x;
            assert rows[k + 1] == x;
          }
        }
      }
    }
  }

  /** `user_consent`. */
  class ConsentTable {
    var rows: seq<ConsentRow>

    ghost predicate Valid()
      reads this
    {
      ConsentKeysUnique(rows)
    }

    constructor ()
      ensures Valid() && rows == []
    {
      rows := [];
    }

    /** `upsert(row, { onConflict: "spotify_user_id" })`. */
    method Upsert(row: ConsentRow)
      requires Valid()
      modifies this
      ensures Valid()
      ensures rows == UpsertConsent(old(rows), row)
    {
      UpsertConsentKeepsKeysUnique(rows, row);
      rows := UpsertConsent(rows, row);
    }
  }

  // ---------------------------------------------------------------- profiles

  /** A row of `profiles`, keyed by `id`. */
  datatype ProfileRow = ProfileRow(id: string, name: Json, image: Json, public: Json)

  /** The row stored under `id`, if any. */
  function FindProfile(rows: seq<ProfileRow>, id: string): Option<ProfileRow>
  {
    if |rows| == 0 then None
    else if rows[0].id == id then Some(rows[0])
    else FindProfile(rows[1..], id)
  }

  /** FindProfile finds nothing only when no row has that id. */
  lemma {:induction false} FindProfileNoneMeansAbsent(rows: seq<ProfileRow>, id: string)
    requires FindProfile(rows, id).None?
    ensures forall x :: x in rows ==> x.id != id
  {
    if |rows| > 0 {
      FindProfileNoneMeansAbsent(rows[1..], id);
    }
  }

  /** `id` is the primary key. */
  ghost predicate ProfileKeysUnique(rows: seq<ProfileRow>)
  {
    forall i, j :: 0 <= i < |rows| && 0 <= j < |rows| && rows[i].id == rows[j].id ==> i == j
  }

  /** What the upsert of `{ id, name, image }` leaves under `id`: on conflict
      only the columns present in the payload are written, so `public`
      keeps its value; a new row gets null for a missing column and the
      table's default for `public`. */
  function Merged(existing: Option<ProfileRow>, id: string, name: Option<Json>, image: Option<Json>, publicDefault: Json): ProfileRow
  {
    match existing
    case None => ProfileRow(id, OrNull(name), OrNull(image), publicDefault)
    case Some(p) => p.(name := if name.Some? then name.value else p.name,
                       image := if image.Some? then image.value else p.image)
  }

  /** `upsert({ id, name, image })` on the primary key. */
  function UpsertProfile(rows: seq<ProfileRow>, id: string, name: Option<Json>, image: Option<Json>, publicDefault: Json): (r: seq<ProfileRow>)
    ensures FindProfile(r, id) == Some(Merged(FindProfile(rows, id), id, name, image, publicDefault))
    ensures forall k :: k != id ==> FindProfile(r, k) == FindProfile(rows, k)
    ensures |r| == |rows| + (if FindProfile(rows, id).None? then 1 else 0)
    ensures forall x :: x in r ==> x.id == id || x in rows
    ensures forall x :: x in rows && x.id != id ==> x in r
  {
    if |rows| == 0 then [Merged(None, id, name, image, publicDefault)]
    else if rows[0].id == id then [Merged(Some(rows[0]), id, name, image, publicDefault)] + rows[1..]
    else [rows[0]] + UpsertProfile(rows[1..], id, name, image, publicDefault)
  }

  /** The upsert never duplicates a primary key. */
  lemma {:induction false} UpsertProfileKeepsKeysUnique(rows: seq<ProfileRow>, id: string, name: Option<Json>, image: Option<Json>, publicDefault: Json)
    requires ProfileKeysUnique(rows)
    ensures ProfileKeysUnique(UpsertProfile(rows, id, name, image, publicDefault))
  {
    if |rows| > 0 {
      var tail := rows[1..];
      assert ProfileKeysUnique(tail) by {
        forall i, j | 0 <= i < |tail| && 0 <= j < |tail| && tail[i].id == tail[j].id
          ensures i == j
        {
          assert rows[i + 1].id == rows[j + 1].id;
        }
      }
      if rows[0].id == id {
        var r := UpsertProfile(rows, id, name, image, publicDefault);
        assert r == [Merged(Some(rows[0]), id, name, image, publicDefault)] + tail;
        forall i, j | 0 <= i < |r| && 0 <= j < |r| && r[i].id == r[j].id
          ensures i == j
        {
          assert r[i].id == rows[i].id && r[j].id == rows[j].id;
        }
      } else {
        UpsertProfileKeepsKeysUnique(tail, id, name, image, publicDefault);
        var rest := UpsertProfile(tail, id, name, image, publicDefault);
        forall x | x in rest ensures x.id != rows[0].id {
          if x.id != id {
            var k :| 0 <= k < |tail| && tail[k] == x;
            assert rows[k + 1] == x;
          }
        }
      }
    }
  }

  /** Repeating the same upsert changes nothing more. */
  lemma {:induction false} UpsertProfileIdempotent(rows: seq<ProfileRow>, id: string, name: Option<Json>, image: Option<Json>, publicDefault: Json)
    ensures var once := UpsertProfile(rows, id, name, image, publicDefault);
      UpsertProfile(once, id, name, image, publicDefault) == once
  {
    if |rows| > 0 && rows[0].id != id {
      UpsertProfileIdempotent(rows[1..], id, name, image, publicDefault);
      var rest := UpsertProfile(rows[1..], id, name, image, publicDefault);
      assert ([rows[0]] + rest)[1..] == rest;
    }
  }

  /** `update({ public: value }).eq("id", id)`: a missing `value` writes no
      column. No row is created when `id` is absent. */
  function UpdatePublic(rows: seq<ProfileRow>, id: string, value: Option<Json>): (r: seq<ProfileRow>)
    ensures |r| == |rows|
    ensures forall i :: 0 <= i < |rows| ==>
      r[i].id == rows[i].id && r[i].name == rows[i].name && r[i].image == rows[i].image
    ensures forall i :: 0 <= i < |rows| && (rows[i].id != id || value.None?) ==> r[i] == rows[i]
    ensures forall i :: 0 <= i < |rows| && rows[i].id == id && value.Some? ==> r[i].public == value.value
  {
    if |rows| == 0 then []
    else
      var head := if rows[0].id == id && value.Some? then rows[0].(public := value.value) else rows[0];
      [head] + UpdatePublic(rows[1..], id, value)
  }

  /** An update of an id that has no row leaves the table as it was. */
  lemma UpdateOfMissingIdIsIdentity(rows: seq<ProfileRow>, id: string, value: Option<Json>)
    requires forall x :: x in rows ==> x.id != id
    ensures UpdatePublic(rows, id, value) == rows
  {
    var r := UpdatePublic(rows, id, value);
    assert forall i :: 0 <= i < |rows| ==> r[i] == rows[i];
  }

  /** `profiles`. The column default of `public` is not fixed by the
      handlers, so the table carries it. */
  class ProfilesTable {
    var rows: seq<ProfileRow>
    const publicDefault: Json

    ghost predicate Valid()
      reads this
    {
      ProfileKeysUnique(rows)
    }

    constructor (publicDefault: Json)
      ensures Valid() && rows == [] && this.publicDefault == publicDefault
    {
      rows := [];
      this.publicDefault := publicDefault;
    }

    /** `upsert({ id, name, image })`. */
    method Upsert(id: string, name: Option<Json>, image: Option<Json>)
      requires Valid()
      modifies this
      ensures Valid()
      ensures rows == UpsertProfile(old(rows), id, name, image, publicDefault)
    {
      UpsertProfileKeepsKeysUnique(rows, id, name, image, publicDefault);
      rows := UpsertProfile(rows, id, name, image, publicDefault);
    }

    /** `update({ public: value }).eq("id", id)`. */
    method UpdatePublicOf(id: string, value: Option<Json>)
      requires Valid()
      modifies this
      ensures Valid()
      ensures rows == UpdatePublic(old(rows), id, value)
    {
      rows := UpdatePublic(rows, id, value);
      assert ProfileKeysUnique(rows) by {
        var before := old(rows);
        forall i, j | 0 <= i < |rows| && 0 <= j < |rows| && rows[i].id == rows[j].id
          ensures i == j
        {
          assert before[i].id == before[j].id;
        }
      }
    }
  }
}

/**
 * The paste lifecycle of `lib/actions/paste-actions.ts`: short random identifiers, creation with a
 * size limit, and lookup that deletes an expired paste. The hosted `pastes` table is a
 * `PasteTable` object whose `rows` map is keyed by identifier. Random bytes, the clock, the
 * database's `created_at` stamp and the way a store call ends (a reply, an error reply or a thrown
 * exception) are parameters.
 */
module PasteActions {
  import opened Wrappers
  import opened Text
  import Crypto
  import Expiration

  const IdLength := 10

  predicate IsBase62(c: char) {
    ('A' <= c <= 'Z') || ('a' <= c <= 'z') || ('0' <= c <= '9')
  }

  /** The 62 identifier symbols of `charset`, in its order: capitals, small letters, digits. */
  const Capitals: string := seq(26, k requires 0 <= k < 26 => (('A' as int) + k) as char)
  const SmallLetters: string := seq(26, k requires 0 <= k < 26 => (('a' as int) + k) as char)
  const Digits: string := seq(10, k requires 0 <= k < 10 => (('0' as int) + k) as char)
  const Charset: string := Capitals + SmallLetters + Digits

  /** Spelled out, the charset is the literal of `generateId`. */
  lemma CharsetSpelledOut()
    ensures Charset == "ABCDEFGHIJKLMNOPQRSTUVWXYZ" + "abcdefghijklmnopqrstuvwxyz" + "0123456789"
  {
    CapitalsSpelledOut();
    SmallLettersSpelledOut();
    DigitsSpelledOut();
  }

  lemma CapitalsSpelledOut()
    ensures Capitals == "ABCDEFGHIJKLMNOPQRSTUVWXYZ"
  {
  }

  lemma SmallLettersSpelledOut()
    ensures SmallLetters == "abcdefghijklmnopqrstuvwxyz"
  {
  }

  lemma DigitsSpelledOut()
    ensures Digits == "0123456789"
  {
  }

  /** Symbol `k` of the charset, computed from its position: an alphanumeric character. */
  function Symbol(k: nat): (c: char)
    requires k < 62
    ensures IsBase62(c)
  {
    if k < 26 then (('A' as int) + k) as char
    else if k < 52 then (('a' as int) + (k - 26)) as char
    else (('0' as int) + (k - 52)) as char
  }

  /** `charset[k]` is symbol `k`. */
  lemma CharsetSymbols()
    ensures |Charset| == 62
    ensures forall k :: 0 <= k < 62 ==> Charset[k] == Symbol(k)
  {
  }

  /** Distinct positions of the charset hold distinct symbols. */
  lemma SymbolInjective(j: nat, k: nat)
    requires j < 62 && k < 62 && Symbol(j) == Symbol(k)
    ensures j == k
  {
  }

  /** The identifier `generateId` builds from its random bytes. */
  function IdOf(bytes: seq<Crypto.Byte>): (id: string)
    ensures |id| == |bytes|
    ensures forall i :: 0 <= i < |id| ==> id[i] == Symbol(bytes[i] % 62) && IsBase62(id[i])
  {
    seq(|bytes|, i requires 0 <= i < |bytes| => Symbol(bytes[i] % 62))
  }

  /** `generateId()` given the ten bytes that `crypto.getRandomValues` wrote. */
  method GenerateId(randomBytes: seq<Crypto.Byte>) returns (id: string)
    requires |randomBytes| == IdLength
    ensures id == IdOf(randomBytes)
    ensures |id| == IdLength && forall i :: 0 <= i < |id| ==> IsBase62(id[i])
  {
    id := "";
    for i := 0 to IdLength
      invariant id == IdOf(randomBytes[..i])
    {
      id := id + [Charset[randomBytes[i] % |Charset|]];
    }
    assert randomBytes[..IdLength] == randomBytes;
  }

  /**
   * Different bytes can give the same identifier only by being congruent modulo 62: `byte % 62`
   * folds 256 byte values onto 62 symbols.
   */
  lemma SameIdIffCongruent(a: seq<Crypto.Byte>, b: seq<Crypto.Byte>)
    requires |a| == |b|
    ensures IdOf(a) == IdOf(b) <==> forall i :: 0 <= i < |a| ==> a[i] % 62 == b[i] % 62
  {
    if IdOf(a) == IdOf(b) {
      forall i | 0 <= i < |a|
        ensures a[i] % 62 == b[i] % 62
      {
        assert Symbol(a[i] % 62) == Symbol(b[i] % 62);
        SymbolInjective(a[i] % 62, b[i] % 62);
      }
    } else {
      var i :| 0 <= i < |a| && IdOf(a)[i] != IdOf(b)[i];
    }
  }

  /** The number of bytes `new Blob([s]).size` counts: the UTF-8 length of `s`. */
  function Utf8Length(s: string): (n: nat)
    ensures |s| <= n <= 4 * |s|
  {
    if s == [] then 0
    else
      var c := s[0] as int;
      (if c < 0x80 then 1 else if c < 0x800 then 2 else if c < 0x1_0000 then 3 else 4) + Utf8Length(s[1..])
  }

  predicate IsAscii(s: string) {
    forall i :: 0 <= i < |s| ==> s[i] as int < 0x80
  }

  /**
   * A string of ASCII characters, which the base64 envelope always is, takes one byte per
   * character.
   */
  lemma {:induction false} AsciiByteLength(s: string)
    requires IsAscii(s)
    ensures Utf8Length(s) == |s|
  {
    if s != [] {
      AsciiByteLength(s[1..]);
    }
  }

  const MaxContentBytes := 1024 * 1024

  const TooLarge := "Content exceeds maximum size of 1MB"
  const CreateFailed := "Failed to create paste"
  const UnexpectedError := "An unexpected error occurred"
  const NotFoundMessage := "Paste not found"
  const ExpiredMessage := "Paste has expired"
  const RetrieveFailed := "Failed to retrieve paste"

  /** A stored paste. Times are milliseconds; `expiresAt` is `None` for `null`. */
  datatype Row = Row(id: string, encryptedContent: string, language: string, createdAt: int, expiresAt: Option<int>)

  /** What a caller hands to `createPaste`. */
  datatype NewPaste = NewPaste(encryptedContent: string, language: string, expiresAt: Option<int>)

  /** How a call to the store ends: a reply, a reply carrying `error`, or a thrown exception. */
  datatype StoreOutcome = Replied | ErrorReply | Threw

  datatype CreateResult = Created(id: string) | CreateError(error: string)

  datatype GetResult =
    | Found(paste: Row)
    | NotFound(error: string)
    | Gone(error: string)
    | GetError(error: string)

  /**
   * `createPaste(data)` on the table `rows`: the size check, then the insert of a row under the
   * generated identifier. The insert fails when the store reports an error, including the
   * primary-key conflict of an identifier already taken.
   */
  function Create(rows: map<string, Row>, data: NewPaste, randomBytes: seq<Crypto.Byte>, createdAt: int, insert: StoreOutcome)
    : (r: (CreateResult, map<string, Row>))
    requires |randomBytes| == IdLength
  {
    if Utf8Length(data.encryptedContent) > MaxContentBytes then (CreateError(TooLarge), rows)
    else
      var id := IdOf(randomBytes);
      match insert
      case Threw => (CreateError(UnexpectedError), rows)
      case ErrorReply => (CreateError(CreateFailed), rows)
      case Replied =>
        if id in rows then (CreateError(CreateFailed), rows)
        else (Created(id), rows[id := Row(id, data.encryptedContent, data.language, createdAt, data.expiresAt)])
  }

  /**
   * `getPaste(id)` on the table `rows` at clock `now`: the select, then the expiry check and the
   * delete whose reply is ignored.
   */
  function Get(rows: map<string, Row>, id: string, now: int, select: StoreOutcome, delete: StoreOutcome)
    : (r: (GetResult, map<string, Row>))
  {
    match select
    case Threw => (GetError(RetrieveFailed), rows)
    case ErrorReply => (NotFound(NotFoundMessage), rows)
    case Replied =>
      if id !in rows then (NotFound(NotFoundMessage), rows)
      else
        var paste := rows[id];
        if paste.expiresAt.Some? && Expiration.IsExpired(paste.expiresAt, now) then
          match delete
          case Threw => (GetError(RetrieveFailed), rows)
          case ErrorReply => (Gone(ExpiredMessage), rows)
          case Replied => (Gone(ExpiredMessage), rows - {id})
        else (Found(Row(paste.id, paste.encryptedContent, paste.language, paste.createdAt, paste.expiresAt)), rows)
  }

  /** Every row is stored under its own `id`, the table's primary key. */
  predicate Keyed(rows: map<string, Row>) {
    forall k :: k in rows ==> rows[k].id == k
  }

  /** The hosted `pastes` table. */
  class PasteTable {
    var rows: map<string, Row>

    predicate Valid()
      reads this
    {
      Keyed(rows)
    }

    constructor (initial: map<string, Row>)
      requires Keyed(initial)
      ensures rows == initial && Valid()
    {
      rows := initial;
    }
  }

  /** `createPaste(data)`, run against `table`. */
  method CreatePaste(table: PasteTable, data: NewPaste, randomBytes: seq<Crypto.Byte>, createdAt: int, insert: StoreOutcome)
    returns (result: CreateResult)
    requires |randomBytes| == IdLength && table.Valid()
    modifies table
    ensures (result, table.rows) == Create(old(table.rows), data, randomBytes, createdAt, insert)
    ensures table.Valid()
  {
    if Utf8Length(data.encryptedContent) > MaxContentBytes {
      return CreateError(TooLarge);
    }
    var id := GenerateId(randomBytes);
    if insert == Threw {
      return CreateError(UnexpectedError);
    }
    if insert == ErrorReply || id in table.rows {
      return CreateError(CreateFailed);
    }
    table.rows := table.rows[id := Row(id, data.encryptedContent, data.language, createdAt, data.expiresAt)];
    return Created(id);
  }

  /** `getPaste(id)`, run against `table` at clock `now`. */
  method GetPaste(table: PasteTable, id: string, now: int, select: StoreOutcome, delete: StoreOutcome)
    returns (result: GetResult)
    requires table.Valid()
    modifies table
    ensures (result, table.rows) == Get(old(table.rows), id, now, select, delete)
    ensures table.Valid()
  {
    if select == Threw {
      return GetError(RetrieveFailed);
    }
    if select == ErrorReply || id !in table.rows {
      return NotFound(NotFoundMessage);
    }
    var paste := table.rows[id];
    if paste.expiresAt.Some? && Expiration.IsExpired(paste.expiresAt, now) {
      if delete == Threw {
        return GetError(RetrieveFailed);
      }
      if delete == Replied {
        table.rows := table.rows - {id};
      }
      return Gone(ExpiredMessage);
    }
    return Found(Row(paste.id, paste.encryptedContent, paste.language, paste.createdAt, paste.expiresAt));
  }

  /** Oversized content is refused before any identifier is drawn or any store call is made. */
  lemma OversizedIsRefusedFirst(rows: map<string, Row>, data: NewPaste, randomBytes: seq<Crypto.Byte>, createdAt: int, insert: StoreOutcome)
    requires |randomBytes| == IdLength
    ensures Utf8Length(data.encryptedContent) > MaxContentBytes <==>
      Create(rows, data, randomBytes, createdAt, insert) == (CreateError(TooLarge), rows)
  {
  }

  /** Exactly one mebibyte of content is still accepted. */
  lemma OneMebibyteIsAccepted(rows: map<string, Row>, data: NewPaste, randomBytes: seq<Crypto.Byte>, createdAt: int)
    requires |randomBytes| == IdLength && Utf8Length(data.encryptedContent) == 1_048_576
    requires IdOf(randomBytes) !in rows
    ensures Create(rows, data, randomBytes, createdAt, Replied).0 == Created(IdOf(randomBytes))
  {
  }

  /**
   * A creation succeeds exactly when the content fits, the insert replies and the identifier is
   * free; it then returns the identifier and stores the row under it, and otherwise returns an
   * error and leaves the table as it was.
   */
  lemma CreateOutcome(rows: map<string, Row>, data: NewPaste, randomBytes: seq<Crypto.Byte>, createdAt: int, insert: StoreOutcome)
    requires |randomBytes| == IdLength
    ensures var (result, rows') := Create(rows, data, randomBytes, createdAt, insert);
      var id := IdOf(randomBytes);
      && (result.Created? <==> Utf8Length(data.encryptedContent) <= MaxContentBytes && insert == Replied && id !in rows)
      && (result.Created? ==> result.id == id && |id| == IdLength && rows' == rows[id := Row(id, data.encryptedContent, data.language, createdAt, data.expiresAt)])
      && (result.CreateError? ==> rows' == rows && result.error in {TooLarge, CreateFailed, UnexpectedError})
  {
  }

  /** A lookup of an identifier the table does not hold reports `notFound` and changes nothing. */
  lemma MissingIsNotFound(rows: map<string, Row>, id: string, now: int, delete: StoreOutcome)
    requires id !in rows
    ensures Get(rows, id, now, Replied, delete) == (NotFound(NotFoundMessage), rows)
  {
  }

  /**
   * A lookup never hands out an expired paste: it reports the expiry and, once the delete
   * replies, the row is gone; every other row stays.
   */
  lemma ExpiredIsNeverReturned(rows: map<string, Row>, id: string, now: int, select: StoreOutcome, delete: StoreOutcome)
    requires id in rows && Expiration.IsExpired(rows[id].expiresAt, now)
    ensures var (result, rows') := Get(rows, id, now, select, delete);
      && !result.Found?
      && (select == Replied && delete != Threw ==> result == Gone(ExpiredMessage))
      && (select == Replied && delete == Replied ==> rows' == rows - {id})
      && (forall k :: k in rows && k != id ==> k in rows' && rows'[k] == rows[k])
  {
  }

  /** A paste that has not expired comes back field for field, and the table is unchanged. */
  lemma LivePasteIsReturned(rows: map<string, Row>, id: string, now: int, delete: StoreOutcome)
    requires id in rows && !Expiration.IsExpired(rows[id].expiresAt, now)
    ensures Get(rows, id, now, Replied, delete) == (Found(rows[id]), rows)
  {
  }

  /** Whatever a lookup answers, the only row it can change is the one it looked up. */
  lemma GetTouchesOnlyItsRow(rows: map<string, Row>, id: string, now: int, select: StoreOutcome, delete: StoreOutcome)
    ensures var rows' := Get(rows, id, now, select, delete).1;
      rows' == rows || rows' == rows - {id}
  {
  }

  /**
   * A paste created and then looked up before it expires is returned with what was stored:
   * its identifier, content, language, creation stamp and expiry.
   */
  lemma CreateThenGet(rows: map<string, Row>, data: NewPaste, randomBytes: seq<Crypto.Byte>, createdAt: int, now: int, delete: StoreOutcome)
    requires |randomBytes| == IdLength
    requires Create(rows, data, randomBytes, createdAt, Replied).0.Created?
    requires !Expiration.IsExpired(data.expiresAt, now)
    ensures var (created, rows') := Create(rows, data, randomBytes, createdAt, Replied);
      Get(rows', created.id, now, Replied, delete).0
        == Found(Row(created.id, data.encryptedContent, data.language, createdAt, data.expiresAt))
  {
  }

  /** After an expired paste was deleted, the next lookup reports it as not found. */
  lemma ExpiredThenNotFound(rows: map<string, Row>, id: string, now: int, later: int, delete: StoreOutcome)
    requires id in rows && Expiration.IsExpired(rows[id].expiresAt, now)
    ensures var rows' := Get(rows, id, now, Replied, Replied).1;
      Get(rows', id, later, Replied, delete).0 == NotFound(NotFoundMessage)
  {
  }

  /** Creating and looking up pastes keep every row under its own identifier. */
  lemma CreateGetKeepKeyed(rows: map<string, Row>, data: NewPaste, randomBytes: seq<Crypto.Byte>, createdAt: int, insert: StoreOutcome,
                           id: string, now: int, select: StoreOutcome, delete: StoreOutcome)
    requires |randomBytes| == IdLength && Keyed(rows)
    ensures Keyed(Create(rows, data, randomBytes, createdAt, insert).1)
    ensures Keyed(Get(rows, id, now, select, delete).1)
  {
  }

  /** A lookup that finds a paste returns the one stored under the identifier asked for. */
  lemma FoundHasAskedId(rows: map<string, Row>, id: string, now: int, select: StoreOutcome, delete: StoreOutcome)
    requires Keyed(rows)
    ensures Get(rows, id, now, select, delete).0.Found? ==> Get(rows, id, now, select, delete).0.paste.id == id
  {
  }
}

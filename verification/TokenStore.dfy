/**
 * The OAuth token store (mcp_server/oauth_provider.py): three sections keyed by the hash of a token, pruned lazily,
 * rewritten to a file on most changes, and read back, old formats included, on start.
 */
module TokenStore {
  import opened Wrappers
  import opened Digests

  type Token = Secret
  type ClientId = string
  type KeyId = string

  /** The expires_at field: left out, null, or a time in epoch seconds. */
  datatype Expiry = Missing | Null | At(time: real)

  /** Whom a grant acts for, under which API key, and when the consent behind it was given. */
  datatype Claims = Claims(key: Option<KeyId>, user: Option<string>, role: Option<string>, grantedAt: Option<int>)

  const NO_CLAIMS := Claims(None, None, None, None)

  /** An entry of any section. One that no longer passes validation is not readable. */
  datatype Grant = Grant(client: ClientId, claims: Claims, scopes: seq<string>, expiry: Expiry, readable: bool)

  /** An entry as the older formats kept it, with its raw secret. */
  datatype Legacy = Legacy(secret: Token, grant: Grant)

  datatype Client = Client(metadata: string, issuedAt: Option<real>)

  datatype File =
    | Absent
    | Corrupt
    | Flat(tokensRaw: map<Token, Legacy>)
    | V1(accessRaw: map<Token, Legacy>, refreshRaw: map<Token, Legacy>, codesRaw: map<Token, Legacy>,
         clients: map<ClientId, Client>)
    | V2(sections: Sections)

  datatype Sections = Sections(
    access: map<Digest, Grant>, refresh: map<Digest, Grant>, codes: map<Digest, Grant>,
    registered: map<ClientId, Client>)

  const EMPTY := Sections(map[], map[], map[], map[])

  // ---- what is live -------------------------------------------------------------------

  datatype Kind = Access | Refresh | Code

  function Due(expiry: Expiry): real {
    if expiry.At? then expiry.time else 0.0
  }

  /** A refresh token without an expiry never expires; an access token or code without one already has. */
  predicate Live(kind: Kind, grant: Grant, now: real) {
    match kind
    case Access => now < Due(grant.expiry)
    case Refresh => grant.expiry.At? ==> now < grant.expiry.time
    case Code => now < Due(grant.expiry) && grant.readable
  }

  function Lookup<K>(kind: Kind, entries: map<K, Grant>, k: K, now: real): Option<Grant> {
    if k in entries && Live(kind, entries[k], now) then Some(entries[k]) else None
  }

  // ---- the simple map the store stands for --------------------------------------------

  /** Raw token to entry, never pruned. */
  datatype Issued = Issued(access: map<Token, Grant>, refresh: map<Token, Grant>, codes: map<Token, Grant>)

  ghost predicate Agrees(kind: Kind, stored: map<Digest, Grant>, issued: map<Token, Grant>, now: real) {
    forall t: Token :: Lookup(kind, stored, Sha256(t), now) == Lookup(kind, issued, t, now)
  }

  ghost predicate AllAgree(stored: Sections, issued: Issued, now: real) {
    && Agrees(Access, stored.access, issued.access, now)
    && Agrees(Refresh, stored.refresh, issued.refresh, now)
    && Agrees(Code, stored.codes, issued.codes, now)
  }

  /** What agrees now agrees ever after: entries only go from live to expired. */
  lemma AgreesLater(kind: Kind, stored: map<Digest, Grant>, issued: map<Token, Grant>, now: real, later: real)
    requires Agrees(kind, stored, issued, now) && now <= later
    ensures Agrees(kind, stored, issued, later)
  {
    forall t: Token ensures Lookup(kind, stored, Sha256(t), later) == Lookup(kind, issued, t, later) {
      assert Lookup(kind, stored, Sha256(t), now) == Lookup(kind, issued, t, now);
    }
  }

  lemma AllAgreeLater(stored: Sections, issued: Issued, now: real, later: real)
    requires AllAgree(stored, issued, now) && now <= later
    ensures AllAgree(stored, issued, later)
  {
    AgreesLater(Access, stored.access, issued.access, now, later);
    AgreesLater(Refresh, stored.refresh, issued.refresh, now, later);
    AgreesLater(Code, stored.codes, issued.codes, now, later);
  }

  /** Dropping entries that are no longer live changes no answer. */
  lemma PruningAgrees(
      kind: Kind, stored: map<Digest, Grant>, kept: map<Digest, Grant>, issued: map<Token, Grant>, now: real)
    requires Agrees(kind, stored, issued, now)
    requires forall d :: d in kept ==> d in stored && kept[d] == stored[d]
    requires forall d :: d in stored && Live(kind, stored[d], now) ==> d in kept
    ensures Agrees(kind, kept, issued, now)
  {
    forall t: Token ensures Lookup(kind, kept, Sha256(t), now) == Lookup(kind, issued, t, now) {
      assert Lookup(kind, stored, Sha256(t), now) == Lookup(kind, issued, t, now);
    }
  }

  lemma PuttingAgrees(
      kind: Kind, stored: map<Digest, Grant>, issued: map<Token, Grant>, token: Token, grant: Grant, now: real)
    requires Agrees(kind, stored, issued, now)
    ensures Agrees(kind, stored[Sha256(token) := grant], issued[token := grant], now)
  {
    forall t: Token
      ensures Lookup(kind, stored[Sha256(token) := grant], Sha256(t), now) ==
        Lookup(kind, issued[token := grant], t, now)
    {
      assert Lookup(kind, stored, Sha256(t), now) == Lookup(kind, issued, t, now);
    }
  }

  lemma RemovingAgrees(kind: Kind, stored: map<Digest, Grant>, issued: map<Token, Grant>, token: Token, now: real)
    requires Agrees(kind, stored, issued, now)
    ensures Agrees(kind, stored - {Sha256(token)}, issued - {token}, now)
  {
    forall t: Token
      ensures Lookup(kind, stored - {Sha256(token)}, Sha256(t), now) == Lookup(kind, issued - {token}, t, now)
    {
      assert Lookup(kind, stored, Sha256(t), now) == Lookup(kind, issued, t, now);
    }
  }

  lemma RemovingDeadAgrees(kind: Kind, stored: map<Digest, Grant>, issued: map<Token, Grant>, token: Token, now: real)
    requires Agrees(kind, stored, issued, now)
    requires Sha256(token) in stored ==> !Live(kind, stored[Sha256(token)], now)
    ensures Agrees(kind, stored, issued - {token}, now)
  {
    forall t: Token ensures Lookup(kind, stored, Sha256(t), now) == Lookup(kind, issued - {token}, t, now) {
      assert Lookup(kind, stored, Sha256(t), now) == Lookup(kind, issued, t, now);
    }
  }

  // ---- entries of one key -------------------------------------------------------------

  /** A code without claims counts as holding the empty key. */
  predicate Holds(kind: Kind, grant: Grant, key: KeyId) {
    if kind == Code && grant.claims.key.None? then key == "" else grant.claims.key == Some(key)
  }

  function WithoutKey<K>(kind: Kind, entries: map<K, Grant>, key: KeyId): map<K, Grant> {
    map k | k in entries && !Holds(kind, entries[k], key) :: entries[k]
  }

  function IssuedWithout(issued: Issued, key: KeyId): Issued {
    Issued(WithoutKey(Access, issued.access, key), WithoutKey(Refresh, issued.refresh, key),
      WithoutKey(Code, issued.codes, key))
  }

  /** Exactly the entries issued from this key are gone; a code without claims was issued from the empty key. */
  ghost predicate LosesKey(before: Issued, after: Issued, key: KeyId) {
    && after.access == (map t | t in before.access && before.access[t].claims.key != Some(key) :: before.access[t])
    && after.refresh == (map t | t in before.refresh && before.refresh[t].claims.key != Some(key) :: before.refresh[t])
    && after.codes == map t | t in before.codes && before.codes[t].claims.key.GetOr("") != key :: before.codes[t]
  }

  lemma WithoutKeyLoses(issued: Issued, key: KeyId)
    ensures LosesKey(issued, IssuedWithout(issued, key), key)
  {}

  lemma WithoutKeyAgrees(kind: Kind, stored: map<Digest, Grant>, issued: map<Token, Grant>, key: KeyId, now: real)
    requires Agrees(kind, stored, issued, now)
    ensures Agrees(kind, WithoutKey(kind, stored, key), WithoutKey(kind, issued, key), now)
  {
    forall t: Token
      ensures Lookup(kind, WithoutKey(kind, stored, key), Sha256(t), now) ==
        Lookup(kind, WithoutKey(kind, issued, key), t, now)
    {
      assert Lookup(kind, stored, Sha256(t), now) == Lookup(kind, issued, t, now);
    }
  }

  lemma SameSizeSameKeys<K>(kind: Kind, entries: map<K, Grant>, key: KeyId)
    ensures |WithoutKey(kind, entries, key)| <= |entries|
    ensures |WithoutKey(kind, entries, key)| == |entries| ==> WithoutKey(kind, entries, key) == entries
  {
    var kept := WithoutKey(kind, entries, key);
    assert |kept| == |kept.Keys| && |entries| == |entries.Keys|;
    assert entries.Keys == kept.Keys + (entries.Keys - kept.Keys);
  }

  function SectionsWithout(sections: Sections, key: KeyId): Sections {
    sections.(
      access := WithoutKey(Access, sections.access, key), refresh := WithoutKey(Refresh, sections.refresh, key),
      codes := WithoutKey(Code, sections.codes, key))
  }

  function Size(sections: Sections): nat {
    |sections.access| + |sections.refresh| + |sections.codes|
  }

  lemma NoneRemoved(sections: Sections, key: KeyId)
    ensures Size(SectionsWithout(sections, key)) <= Size(sections)
    ensures Size(SectionsWithout(sections, key)) == Size(sections) ==> SectionsWithout(sections, key) == sections
  {
    SameSizeSameKeys(Access, sections.access, key);
    SameSizeSameKeys(Refresh, sections.refresh, key);
    SameSizeSameKeys(Code, sections.codes, key);
  }

  lemma WithoutKeyIsOrderable(sections: Sections, key: KeyId)
    ensures !Unorderable(sections) ==> !Unorderable(SectionsWithout(sections, key))
  {}

  lemma WithoutKeyAllAgree(sections: Sections, issued: Issued, key: KeyId, now: real)
    requires AllAgree(sections, issued, now)
    ensures AllAgree(SectionsWithout(sections, key), IssuedWithout(issued, key), now)
  {
    WithoutKeyAgrees(Access, sections.access, issued.access, key, now);
    WithoutKeyAgrees(Refresh, sections.refresh, issued.refresh, key, now);
    WithoutKeyAgrees(Code, sections.codes, issued.codes, key, now);
  }

  // ---- reading the file ---------------------------------------------------------------

  /** A section of an older format re-keyed by hash, secrets stripped. */
  function Migrated(section: map<Token, Legacy>): map<Digest, Grant> {
    map t | t in section :: Sha256(t) := section[t].grant
  }

  method MigrateSection(section: map<Token, Legacy>) returns (migrated: map<Digest, Grant>)
    ensures migrated == Migrated(section)
  {
    migrated := map[];
    var todo := section.Keys;
    while todo != {}
      invariant todo <= section.Keys
      invariant forall t: Token :: Sha256(t) in migrated <==> t in section.Keys - todo
      invariant forall t :: t in section.Keys - todo ==> migrated[Sha256(t)] == section[t].grant
      decreases |todo|
    {
      var t :| t in todo;
      migrated := migrated[Sha256(t) := section[t].grant];
      todo := todo - {t};
    }
    assert section.Keys - todo == section.Keys;
    forall d | d in migrated ensures d in Migrated(section) {
      assert d == Sha256(d.of) && d.of in section;
    }
  }

  function Parsed(file: File): Sections {
    match file
    case Absent => EMPTY
    case Corrupt => EMPTY
    case Flat(tokens) => Sections(Migrated(tokens), map[], map[], map[])
    case V1(access, refresh, codes, clients) => Sections(Migrated(access), Migrated(refresh), Migrated(codes), clients)
    case V2(sections) => sections
  }

  /** A null expiry among the access tokens or the codes: comparing it with the clock raises. */
  predicate Unorderable(sections: Sections) {
    || (exists d :: d in sections.access && sections.access[d].expiry == Null)
    || (exists d :: d in sections.codes && sections.codes[d].expiry == Null)
  }

  /** A file that still holds raw secrets. */
  predicate HoldsSecrets(file: File) {
    file.Flat? || file.V1?
  }

  function Unexpired(sections: Sections, now: real): Sections {
    sections.(
      access := map d | d in sections.access && now < Due(sections.access[d].expiry) :: sections.access[d],
      refresh := map d | d in sections.refresh && Live(Refresh, sections.refresh[d], now) :: sections.refresh[d],
      codes := map d | d in sections.codes && now < Due(sections.codes[d].expiry) :: sections.codes[d])
  }

  function ByToken(section: map<Digest, Grant>): map<Token, Grant> {
    map d | d in section :: d.of := section[d]
  }

  /** The simple map a file stands for. */
  function IssuedIn(sections: Sections): Issued {
    Issued(ByToken(sections.access), ByToken(sections.refresh), ByToken(sections.codes))
  }

  /** What a start makes of a file, as the simple map. */
  function StandsFor(file: File): Issued {
    if Unorderable(Parsed(file)) then Issued(map[], map[], map[]) else IssuedIn(Parsed(file))
  }

  lemma ByTokenAgrees(kind: Kind, section: map<Digest, Grant>, now: real)
    ensures Agrees(kind, section, ByToken(section), now)
  {
    forall t: Token ensures Lookup(kind, section, Sha256(t), now) == Lookup(kind, ByToken(section), t, now) {
      if Sha256(t) in section {
        assert Sha256(t).of in ByToken(section);
      }
    }
  }

  lemma FileAgreesWithItself(sections: Sections, now: real)
    ensures AllAgree(sections, IssuedIn(sections), now)
  {
    ByTokenAgrees(Access, sections.access, now);
    ByTokenAgrees(Refresh, sections.refresh, now);
    ByTokenAgrees(Code, sections.codes, now);
  }

  /** Migration keeps every token's entry under its hash: the file stands for the map it spelled out. */
  lemma MigrationKeepsEntries(section: map<Token, Legacy>)
    ensures ByToken(Migrated(section)) == Entries(section)
    ensures Entries(section) == map t | t in section :: section[t].grant
  {
    var migrated := Migrated(section);
    forall t | t in section ensures t in ByToken(migrated) && ByToken(migrated)[t] == section[t].grant {
      assert Sha256(t) in migrated && Sha256(t).of == t;
    }
    forall t | t in ByToken(migrated) ensures t in section {
      var d :| d in migrated && d.of == t;
    }
  }

  lemma UnexpiredAgrees(sections: Sections, issued: Issued, now: real)
    requires AllAgree(sections, issued, now)
    ensures AllAgree(Unexpired(sections, now), issued, now)
  {
    var kept := Unexpired(sections, now);
    PruningAgrees(Access, sections.access, kept.access, issued.access, now);
    PruningAgrees(Refresh, sections.refresh, kept.refresh, issued.refresh, now);
    PruningAgrees(Code, sections.codes, kept.codes, issued.codes, now);
  }

  lemma UnexpiredIsOrderable(sections: Sections, now: real)
    requires !Unorderable(sections)
    ensures !Unorderable(Unexpired(sections, now))
  {}

  /** What start-up makes of a file: nothing at all if an expiry cannot be compared. */
  function Loaded(file: File, now: real): Sections {
    if Unorderable(Parsed(file)) then EMPTY else Unexpired(Parsed(file), now)
  }

  ghost predicate NothingLive(issued: Issued, now: real) {
    forall t: Token ::
      && Lookup(Access, issued.access, t, now).None?
      && Lookup(Refresh, issued.refresh, t, now).None?
      && Lookup(Code, issued.codes, t, now).None?
  }

  /** A restart answers every lookup as before exactly when no stored expiry is null, or nothing was live anyway. */
  lemma RestartKeepsAnswersWhen(file: File, issued: Issued, now: real)
    requires AllAgree(Parsed(file), issued, now)
    ensures AllAgree(Loaded(file, now), issued, now) <==> !Unorderable(Parsed(file)) || NothingLive(issued, now)
  {
    if !Unorderable(Parsed(file)) {
      UnexpiredAgrees(Parsed(file), issued, now);
    } else {
      EmptyAgreesWhen(issued, now);
    }
  }

  lemma EmptyAgreesWhen(issued: Issued, now: real)
    ensures AllAgree(EMPTY, issued, now) <==> NothingLive(issued, now)
  {
    if !NothingLive(issued, now) {
      var t: Token :| Lookup(Access, issued.access, t, now).Some? || Lookup(Refresh, issued.refresh, t, now).Some?
        || Lookup(Code, issued.codes, t, now).Some?;
      assert Lookup(Access, EMPTY.access, Sha256(t), now) == None;
      assert Lookup(Refresh, EMPTY.refresh, Sha256(t), now) == None;
      assert Lookup(Code, EMPTY.codes, Sha256(t), now) == None;
    }
  }

  /** One access token saved without an expiry is enough: the next start forgets every grant and client. */
  lemma NullExpiryForgetsAll(stored: Sections, token: Token, grant: Grant, now: real)
    requires grant.expiry == Null
    ensures Loaded(V2(stored.(access := stored.access[Sha256(token) := grant])), now) == EMPTY
  {
    assert Sha256(token) in stored.access[Sha256(token) := grant];
  }

  /** Every expiry here can be compared with the clock. */
  ghost predicate Comparable<K>(entries: map<K, Grant>) {
    forall k :: k in entries ==> entries[k].expiry != Null
  }

  /** A section as an older format spells it out. */
  function Entries(section: map<Token, Legacy>): map<Token, Grant> {
    map t | t in section :: section[t].grant
  }

  lemma ComparableHashed(section: map<Token, Legacy>)
    ensures Comparable(Migrated(section)) <==> Comparable(Entries(section))
  {
    forall t | t in section ensures Sha256(t) in Migrated(section) && t in Entries(section) {}
    forall d | d in Migrated(section) ensures d.of in Entries(section) {}
  }

  /** A section of the current format, which knows each token by its hash only, stands for this map. */
  ghost predicate StandsHashed(section: map<Digest, Grant>, issued: map<Token, Grant>) {
    forall t: Token ::
      && (t in issued <==> Sha256(t) in section)
      && (t in issued ==> issued[t] == section[Sha256(t)])
  }

  lemma HashedIsSpelled(section: map<Digest, Grant>)
    ensures StandsHashed(section, ByToken(section))
  {
    forall t: Token ensures t in ByToken(section) <==> Sha256(t) in section {
      assert Sha256(t).of == t;
    }
  }

  lemma FirstFormatStandsFor(file: File)
    requires file.V1? && Comparable(Entries(file.accessRaw)) && Comparable(Entries(file.codesRaw))
    ensures !Unorderable(Parsed(file))
    ensures StandsFor(file) == Issued(Entries(file.accessRaw), Entries(file.refreshRaw), Entries(file.codesRaw))
  {
    MigrationKeepsEntries(file.accessRaw);
    MigrationKeepsEntries(file.refreshRaw);
    MigrationKeepsEntries(file.codesRaw);
    ComparableHashed(file.accessRaw);
    ComparableHashed(file.codesRaw);
  }

  lemma FlatFormatStandsFor(file: File)
    requires file.Flat? && Comparable(Entries(file.tokensRaw))
    ensures !Unorderable(Parsed(file)) && StandsFor(file) == Issued(Entries(file.tokensRaw), map[], map[])
  {
    MigrationKeepsEntries(file.tokensRaw);
    ComparableHashed(file.tokensRaw);
  }

  lemma HashedFormatStandsFor(file: File)
    requires file.V2? && Comparable(file.sections.access) && Comparable(file.sections.codes)
    ensures !Unorderable(Parsed(file))
    ensures
      && StandsHashed(file.sections.access, StandsFor(file).access)
      && StandsHashed(file.sections.refresh, StandsFor(file).refresh)
      && StandsHashed(file.sections.codes, StandsFor(file).codes)
  {
    var access, refresh, codes := file.sections.access, file.sections.refresh, file.sections.codes;
    assert StandsFor(file) == Issued(ByToken(access), ByToken(refresh), ByToken(codes));
    HashedIsSpelled(file.sections.access);
    HashedIsSpelled(file.sections.refresh);
    HashedIsSpelled(file.sections.codes);
  }

  /** A start on a file whose expiries can all be compared: each section of the file in its own place. */
  ghost predicate ReadBack(file: File, issued: Issued, clients: map<ClientId, Client>) {
    match file
    case Absent => issued == Issued(map[], map[], map[]) && clients == map[]
    case Corrupt => issued == Issued(map[], map[], map[]) && clients == map[]
    case Flat(tokens) => issued == Issued(Entries(tokens), map[], map[]) && clients == map[]
    case V1(access, refresh, codes, registered) =>
      issued == Issued(Entries(access), Entries(refresh), Entries(codes)) && clients == registered
    case V2(sections) =>
      && StandsHashed(sections.access, issued.access) && StandsHashed(sections.refresh, issued.refresh)
      && StandsHashed(sections.codes, issued.codes) && clients == sections.registered
  }

  lemma LoadedAgrees(file: File, now: real)
    ensures AllAgree(Loaded(file, now), StandsFor(file), now)
  {
    if !Unorderable(Parsed(file)) {
      FileAgreesWithItself(Parsed(file), now);
      UnexpiredAgrees(Parsed(file), IssuedIn(Parsed(file)), now);
    }
  }

  /** No null expiry among the file's access tokens and codes. */
  ghost predicate AllComparable(file: File) {
    match file
    case Flat(tokens) => Comparable(Entries(tokens))
    case V1(access, _, codes, _) => Comparable(Entries(access)) && Comparable(Entries(codes))
    case V2(sections) => Comparable(sections.access) && Comparable(sections.codes)
    case _ => true
  }

  lemma ComparableWhen(file: File)
    ensures AllComparable(file) <==> !Unorderable(Parsed(file))
  {
    match file
    case Flat(tokens) => ComparableHashed(tokens);
    case V1(access, _, codes, _) =>
      ComparableHashed(access);
      ComparableHashed(codes);
    case _ =>
  }

  lemma FileIsReadBack(file: File)
    ensures AllComparable(file) ==> ReadBack(file, StandsFor(file), Parsed(file).registered)
  {
    if AllComparable(file) {
      match file
      case Flat(_) => FlatFormatStandsFor(file);
      case V1(_, _, _, _) => FirstFormatStandsFor(file);
      case V2(_) => HashedFormatStandsFor(file);
      case _ =>
    }
  }

  lemma ClientsSurvive(file: File, now: real)
    ensures Loaded(file, now).registered == if Unorderable(Parsed(file)) then map[] else Parsed(file).registered
  {}

  /**
   * Whatever its format, a file is read back whole, or else forgotten whole: memory answers as the map the file spells
   * out section by section.
   */
  lemma LoadedIsReadBack(file: File, now: real)
    ensures AllComparable(file) <==> !Unorderable(Parsed(file))
    ensures AllAgree(Loaded(file, now), StandsFor(file), now)
    ensures AllComparable(file) ==> ReadBack(file, StandsFor(file), Loaded(file, now).registered)
    ensures !AllComparable(file) ==> StandsFor(file) == Issued(map[], map[], map[]) && Loaded(file, now) == EMPTY
  {
    LoadedAgrees(file, now);
    ClientsSurvive(file, now);
    ComparableWhen(file);
    FileIsReadBack(file);
  }

  // ---- the store ----------------------------------------------------------------------

  class Store {
    var tokens: map<Digest, Grant>
    var refreshTokens: map<Digest, Grant>
    var authCodes: map<Digest, Grant>
    var clients: map<ClientId, Client>
    var file: File

    ghost var issued: Issued
    ghost var clock: real

    ghost function Memory(): Sections
      reads this
    {
      Sections(tokens, refreshTokens, authCodes, clients)
    }

    /**
     * Memory answers as the simple map does, and so would a file read back from now on unless one of its
     * expiries is null.
     */
    ghost predicate Valid()
      reads this
    {
      && AllAgree(Memory(), issued, clock)
      && (!Unorderable(Parsed(file)) ==> AllAgree(Parsed(file), issued, clock))
      && (forall d :: d in authCodes ==> authCodes[d].expiry != Null)
    }

    /** No expiry in memory is null. */
    ghost predicate Dated()
      reads this
    {
      !Unorderable(Memory())
    }

    /** The file can be read back whole. */
    ghost predicate Readable()
      reads this
    {
      !Unorderable(Parsed(file))
    }

    /** A dated store stays so, and what it writes can be read back. */
    twostate predicate StaysDated()
      reads this
    {
      old(Dated()) ==> Dated() && (old(Readable()) ==> Readable())
    }

    ghost predicate Unwritten()
      reads this
    {
      && AllAgree(Memory(), issued, clock)
      && (forall d :: d in authCodes ==> authCodes[d].expiry != Null)
    }

    method Write()
      requires Unwritten()
      modifies this`file
      ensures Valid() && file == V2(Memory())
    {
      file := V2(Sections(tokens, refreshTokens, authCodes, clients));
    }

    ghost method Advance(now: real)
      requires Valid() && clock <= now
      modifies this`clock
      ensures Valid() && clock == now
    {
      AllAgreeLater(Memory(), issued, clock, now);
      if !Unorderable(Parsed(file)) {
        AllAgreeLater(Parsed(file), issued, clock, now);
      }
      clock := now;
    }

    lemma Remembered(token: Token, now: real)
      requires Valid() && clock <= now
      ensures Lookup(Access, tokens, Sha256(token), now) == Lookup(Access, issued.access, token, now)
    {
      AllAgreeLater(Memory(), issued, clock, now);
    }

    /** What the file agrees with it agrees with later. */
    lemma FileStillAgrees(now: real)
      requires Valid() && clock <= now
      ensures !Unorderable(Parsed(file)) ==> AllAgree(Parsed(file), issued, now)
    {
      if !Unorderable(Parsed(file)) {
        AllAgreeLater(Parsed(file), issued, clock, now);
      }
    }

    /**
     * Reads the file, whose entries are known to be these. Older formats are written back hashed; if an expiry
     * cannot be compared, memory starts empty and the file stays as it was.
     */
    method Load(now: real, ghost known: Issued)
      requires !Unorderable(Parsed(file)) ==> AllAgree(Parsed(file), known, now)
      modifies this
      ensures Valid() && clock == now && Memory() == Loaded(old(file), now)
      ensures issued == if Unorderable(Parsed(old(file))) then Issued(map[], map[], map[]) else known
      ensures
        var was := old(file);
        file == if (was.Flat? || was.V1?) && AllComparable(was) then V2(Memory()) else was
      ensures Dated() && Readable() == old(Readable())
    {
      clock := now;
      var parsed := ParseFile();
      ComparableWhen(file);
      if Unorderable(parsed) {
        tokens, refreshTokens, authCodes, clients := map[], map[], map[], map[];
        issued := Issued(map[], map[], map[]);
        return;
      }
      var kept := Unexpired(parsed, now);
      UnexpiredAgrees(parsed, known, now);
      UnexpiredIsOrderable(parsed, now);
      tokens, refreshTokens, authCodes, clients := kept.access, kept.refresh, kept.codes, kept.registered;
      issued := known;
      assert Memory() == kept;
      if HoldsSecrets(file) {
        Write();
      }
    }

    method ParseFile() returns (parsed: Sections)
      ensures parsed == Parsed(file)
    {
      match file {
        case Absent => parsed := EMPTY;
        case Corrupt => parsed := EMPTY;
        case Flat(flat) =>
          var access := MigrateSection(flat);
          parsed := Sections(access, map[], map[], map[]);
        case V1(accessRaw, refreshRaw, codesRaw, registered) =>
          var access := MigrateSection(accessRaw);
          var refresh := MigrateSection(refreshRaw);
          var codes := MigrateSection(codesRaw);
          parsed := Sections(access, refresh, codes, registered);
        case V2(sections) => parsed := sections;
      }
    }

    /** A start-up after a shutdown: the file answers as the store that wrote it did. */
    constructor Reopened(file: File, now: real, ghost known: Issued)
      requires !Unorderable(Parsed(file)) ==> AllAgree(Parsed(file), known, now)
      ensures Valid() && Dated() && clock == now && Memory() == Loaded(file, now)
      ensures issued == if Unorderable(Parsed(file)) then Issued(map[], map[], map[]) else known
      ensures Readable() <==> !Unorderable(Parsed(file))
    {
      this.file := file;
      new;
      Load(now, known);
    }

    /** Start-up: the store stands for what its file spells out. */
    constructor (file: File, now: real)
      ensures Valid() && Dated() && clock == now && Memory() == Loaded(file, now)
      ensures issued == StandsFor(file)
      ensures AllComparable(file) ==> ReadBack(file, issued, clients)
      ensures !AllComparable(file) ==> issued == Issued(map[], map[], map[]) && clients == map[]
      ensures Readable() <==> !Unorderable(Parsed(file))
    {
      this.file := file;
      new;
      LoadedIsReadBack(file, now);
      FileAgreesWithItself(Parsed(file), now);
      Load(now, IssuedIn(Parsed(file)));
    }

    // -- access tokens

    method SaveToken(token: Token, grant: Grant)
      requires Valid()
      modifies this`tokens, this`file, this`issued
      ensures Valid() && file == V2(Memory())
      ensures issued == old(issued).(access := old(issued).access[token := grant])
      ensures grant.expiry != Null ==> StaysDated()
    {
      PuttingAgrees(Access, tokens, issued.access, token, grant, clock);
      tokens := tokens[Sha256(token) := grant];
      issued := issued.(access := issued.access[token := grant]);
      Write();
    }

    method GetToken(token: Token, now: real) returns (r: Option<Grant>)
      requires Valid() && clock <= now
      modifies this`tokens, this`clock
      ensures Valid() && clock == now
      ensures r == Lookup(Access, issued.access, token, now)
      ensures
        var entries := issued.access;
        r == if token in entries && now < if entries[token].expiry.At? then entries[token].expiry.time else 0.0
          then Some(entries[token])
          else None
      ensures StaysDated()
    {
      Advance(now);
      var key := Sha256(token);
      assert Lookup(Access, tokens, key, now) == Lookup(Access, issued.access, token, now);
      if key !in tokens {
        return None;
      }
      var entry := tokens[key];
      if Due(entry.expiry) <= now {
        PruningAgrees(Access, tokens, tokens - {key}, issued.access, now);
        tokens := tokens - {key};
        return None;
      }
      r := Some(entry);
    }

    method DeleteToken(token: Token)
      requires Valid()
      modifies this`tokens, this`file, this`issued
      ensures Valid()
      ensures issued == old(issued).(access := old(issued).access - {token})
      ensures StaysDated()
    {
      ghost var left := issued.access - {token};
      if Sha256(token) in tokens {
        RemovingAgrees(Access, tokens, issued.access, token, clock);
        tokens := tokens - {Sha256(token)};
        issued := issued.(access := left);
        Write();
      } else {
        RemovingDeadAgrees(Access, tokens, issued.access, token, clock);
        SameAnswersAgree(Access, tokens, Parsed(file).access, issued.access, left, clock);
        issued := issued.(access := left);
      }
    }

    // -- refresh tokens

    method SaveRefreshToken(token: Token, grant: Grant)
      requires Valid()
      modifies this`refreshTokens, this`file, this`issued
      ensures Valid() && file == V2(Memory())
      ensures issued == old(issued).(refresh := old(issued).refresh[token := grant])
      ensures StaysDated()
    {
      PuttingAgrees(Refresh, refreshTokens, issued.refresh, token, grant, clock);
      refreshTokens := refreshTokens[Sha256(token) := grant];
      issued := issued.(refresh := issued.refresh[token := grant]);
      Write();
    }

    method GetRefreshToken(token: Token, now: real) returns (r: Option<Grant>)
      requires Valid() && clock <= now
      modifies this`refreshTokens, this`clock
      ensures Valid() && clock == now
      ensures r == Lookup(Refresh, issued.refresh, token, now)
      ensures
        var entries := issued.refresh;
        r == if token in entries && (entries[token].expiry.At? ==> now < entries[token].expiry.time)
          then Some(entries[token])
          else None
      ensures StaysDated()
    {
      Advance(now);
      var key := Sha256(token);
      assert Lookup(Refresh, refreshTokens, key, now) == Lookup(Refresh, issued.refresh, token, now);
      if key !in refreshTokens {
        return None;
      }
      var entry := refreshTokens[key];
      if entry.expiry.At? && entry.expiry.time <= now {
        PruningAgrees(Refresh, refreshTokens, refreshTokens - {key}, issued.refresh, now);
        refreshTokens := refreshTokens - {key};
        return None;
      }
      r := Some(entry);
    }

    /** The clock is not consulted: an expired token not pruned yet still gives up its claims. */
    method GetRefreshTokenClaims(token: Token) returns (claims: Claims)
      requires Valid()
      ensures Lookup(Refresh, issued.refresh, token, clock).Some? ==> claims == issued.refresh[token].claims
    {
      assert Lookup(Refresh, refreshTokens, Sha256(token), clock) == Lookup(Refresh, issued.refresh, token, clock);
      claims := if Sha256(token) in refreshTokens then refreshTokens[Sha256(token)].claims else NO_CLAIMS;
    }

    method DeleteRefreshToken(token: Token)
      requires Valid()
      modifies this`refreshTokens, this`file, this`issued
      ensures Valid()
      ensures issued == old(issued).(refresh := old(issued).refresh - {token})
      ensures StaysDated()
    {
      ghost var left := issued.refresh - {token};
      if Sha256(token) in refreshTokens {
        RemovingAgrees(Refresh, refreshTokens, issued.refresh, token, clock);
        refreshTokens := refreshTokens - {Sha256(token)};
        issued := issued.(refresh := left);
        Write();
      } else {
        RemovingDeadAgrees(Refresh, refreshTokens, issued.refresh, token, clock);
        SameAnswersAgree(Refresh, refreshTokens, Parsed(file).refresh, issued.refresh, left, clock);
        issued := issued.(refresh := left);
      }
    }

    // -- authorization codes

    /** A code always carries the time it expires at. */
    method SaveAuthCode(code: Token, grant: Grant)
      requires Valid() && grant.expiry.At?
      modifies this`authCodes, this`file, this`issued
      ensures Valid() && file == V2(Memory())
      ensures issued == old(issued).(codes := old(issued).codes[code := grant])
      ensures StaysDated()
    {
      PuttingAgrees(Code, authCodes, issued.codes, code, grant, clock);
      authCodes := authCodes[Sha256(code) := grant];
      issued := issued.(codes := issued.codes[code := grant]);
      Write();
    }

    method GetAuthCode(code: Token, now: real) returns (r: Option<Grant>)
      requires Valid() && clock <= now
      modifies this`authCodes, this`clock
      ensures Valid() && clock == now
      ensures r == Lookup(Code, issued.codes, code, now)
      ensures
        var entries := issued.codes;
        r == if code in entries && entries[code].readable
            && now < if entries[code].expiry.At? then entries[code].expiry.time else 0.0
          then Some(entries[code])
          else None
      ensures StaysDated()
    {
      Advance(now);
      var key := Sha256(code);
      assert Lookup(Code, authCodes, key, now) == Lookup(Code, issued.codes, code, now);
      if key !in authCodes {
        return None;
      }
      var entry := authCodes[key];
      if Due(entry.expiry) <= now || !entry.readable {
        PruningAgrees(Code, authCodes, authCodes - {key}, issued.codes, now);
        authCodes := authCodes - {key};
        return None;
      }
      r := Some(entry);
    }

    method DeleteAuthCode(code: Token)
      requires Valid()
      modifies this`authCodes, this`file, this`issued
      ensures Valid()
      ensures issued == old(issued).(codes := old(issued).codes - {code})
      ensures StaysDated()
    {
      ghost var left := issued.codes - {code};
      if Sha256(code) in authCodes {
        RemovingAgrees(Code, authCodes, issued.codes, code, clock);
        authCodes := authCodes - {Sha256(code)};
        issued := issued.(codes := left);
        Write();
      } else {
        RemovingDeadAgrees(Code, authCodes, issued.codes, code, clock);
        SameAnswersAgree(Code, authCodes, Parsed(file).codes, issued.codes, left, clock);
        issued := issued.(codes := left);
      }
    }

    /** Every entry issued from this key goes, and no other; removed counts them. */
    method DeleteGrantsForKey(key: KeyId) returns (removed: int)
      requires Valid()
      modifies this`tokens, this`refreshTokens, this`authCodes, this`file, this`issued
      ensures Valid()
      ensures issued == IssuedWithout(old(issued), key)
      ensures LosesKey(old(issued), issued, key)
      ensures removed ==
        |old(tokens)| + |old(refreshTokens)| + |old(authCodes)| - |tokens| - |refreshTokens| - |authCodes|
      ensures removed == 0 ==> Memory() == old(Memory()) && file == old(file)
      ensures StaysDated()
    {
      ghost var was, known := Memory(), issued;
      removed := ForgetKey(key);
      WithoutKeyLoses(known, key);
      if removed != 0 {
        Write();
      } else {
        KeyHeldNothing(was, Parsed(file), known, key, clock);
      }
    }

    method ForgetKey(key: KeyId) returns (removed: int)
      requires Unwritten()
      modifies this`tokens, this`refreshTokens, this`authCodes, this`issued
      ensures Unwritten() && (old(Dated()) ==> Dated())
      ensures Memory() == SectionsWithout(old(Memory()), key) && issued == IssuedWithout(old(issued), key)
      ensures removed ==
        |old(tokens)| + |old(refreshTokens)| + |old(authCodes)| - |tokens| - |refreshTokens| - |authCodes|
      ensures removed == 0 ==> Memory() == old(Memory())
    {
      WithoutKeyAllAgree(Memory(), issued, key, clock);
      WithoutKeyIsOrderable(Memory(), key);
      NoneRemoved(Memory(), key);
      var before := |tokens| + |refreshTokens| + |authCodes|;
      tokens := WithoutKey(Access, tokens, key);
      refreshTokens := WithoutKey(Refresh, refreshTokens, key);
      authCodes := WithoutKey(Code, authCodes, key);
      removed := before - |tokens| - |refreshTokens| - |authCodes|;
      issued := IssuedWithout(issued, key);
    }

    // -- clients

    method SaveClient(id: ClientId, client: Client)
      requires Valid()
      modifies this`clients, this`file
      ensures Valid() && clients == old(clients)[id := client] && StaysDated()
    {
      WriteClients(clients[id := client]);
    }

    method WriteClients(left: map<ClientId, Client>)
      requires Valid()
      modifies this`clients, this`file
      ensures Valid() && clients == left && StaysDated()
    {
      clients := left;
      Write();
    }

    /** Drops the old registrations nothing stored was issued to; none of them holds a live credential. */
    method PruneUnusedClients(olderThan: real) returns (pruned: nat)
      requires Valid()
      modifies this`clients, this`file
      ensures Valid()
      ensures clients == old(clients) - Unused(old(Memory()), olderThan)
      ensures forall c :: c in old(clients) ==> (c in clients <==> Kept(old(Memory()), c, olderThan))
      ensures forall c :: c in old(clients) && HoldsLive(issued, c, clock) ==> c in clients
      ensures pruned == |old(clients)| - |clients|
      ensures StaysDated()
    {
      var unused := Unused(Sections(tokens, refreshTokens, authCodes, clients), olderThan);
      UnusedDropped(Memory(), issued, olderThan, clock);
      pruned := |unused|;
      var left := RemoveEach(clients, unused);
      if unused != {} {
        WriteClients(left);
      }
    }
  }

  lemma SameAnswersAgree(
      kind: Kind, stored: map<Digest, Grant>, other: map<Digest, Grant>,
      before: map<Token, Grant>, after: map<Token, Grant>, now: real)
    requires Agrees(kind, stored, before, now) && Agrees(kind, stored, after, now)
    ensures Agrees(kind, other, before, now) ==> Agrees(kind, other, after, now)
  {
    forall t: Token ensures Lookup(kind, before, t, now) == Lookup(kind, after, t, now) {
      assert Lookup(kind, stored, Sha256(t), now) == Lookup(kind, before, t, now);
    }
  }

  lemma SameAnswersAllAgree(memory: Sections, other: Sections, before: Issued, after: Issued, now: real)
    requires AllAgree(memory, before, now) && AllAgree(memory, after, now)
    ensures AllAgree(other, before, now) ==> AllAgree(other, after, now)
  {
    SameAnswersAgree(Access, memory.access, other.access, before.access, after.access, now);
    SameAnswersAgree(Refresh, memory.refresh, other.refresh, before.refresh, after.refresh, now);
    SameAnswersAgree(Code, memory.codes, other.codes, before.codes, after.codes, now);
  }

  lemma KeyHeldNothing(memory: Sections, other: Sections, issued: Issued, key: KeyId, now: real)
    requires AllAgree(memory, issued, now) && SectionsWithout(memory, key) == memory
    ensures AllAgree(other, issued, now) ==> AllAgree(other, IssuedWithout(issued, key), now)
  {
    WithoutKeyAllAgree(memory, issued, key, now);
    SameAnswersAllAgree(memory, other, issued, IssuedWithout(issued, key), now);
  }

  function Since(client: Client): real {
    client.issuedAt.GetOr(0.0)
  }

  function InUse(memory: Sections): set<ClientId> {
    (set d | d in memory.access :: memory.access[d].client)
    + (set d | d in memory.refresh :: memory.refresh[d].client)
    + (set d | d in memory.codes :: memory.codes[d].client)
  }

  /** Registrations older than this that nothing stored was issued to. */
  function Unused(memory: Sections, olderThan: real): set<ClientId> {
    set c | c in memory.registered && c !in InUse(memory) && Since(memory.registered[c]) < olderThan
  }

  /** A registration young enough, or with something stored that was issued to it, expired or not. */
  ghost predicate Kept(memory: Sections, c: ClientId, olderThan: real)
    requires c in memory.registered
  {
    || memory.registered[c].issuedAt.GetOr(0.0) >= olderThan
    || (exists d :: d in memory.access && memory.access[d].client == c)
    || (exists d :: d in memory.refresh && memory.refresh[d].client == c)
    || (exists d :: d in memory.codes && memory.codes[d].client == c)
  }

  lemma UnusedAreNotKept(memory: Sections, olderThan: real)
    ensures
      var left := memory.registered - Unused(memory, olderThan);
      forall c :: c in memory.registered ==> (c in left <==> Kept(memory, c, olderThan))
  {}

  lemma UnusedHoldNothing(memory: Sections, issued: Issued, olderThan: real, now: real)
    requires AllAgree(memory, issued, now)
    ensures Unused(memory, olderThan) <= memory.registered.Keys
    ensures forall c :: HoldsLive(issued, c, now) ==> c !in Unused(memory, olderThan)
  {
    forall c | HoldsLive(issued, c, now) ensures c !in Unused(memory, olderThan) {
      LiveIsInUse(memory, issued, c, now);
    }
  }

  lemma DroppedCount(clients: map<ClientId, Client>, unused: set<ClientId>)
    requires unused <= clients.Keys
    ensures |clients - unused| == |clients| - |unused|
    ensures unused == {} ==> clients - unused == clients
  {
    assert clients.Keys == (clients - unused).Keys + unused;
    assert |clients| == |clients.Keys| && |clients - unused| == |(clients - unused).Keys|;
  }

  /** What dropping the unused registrations leaves. */
  lemma UnusedDropped(memory: Sections, issued: Issued, olderThan: real, now: real)
    requires AllAgree(memory, issued, now)
    ensures
      var unused, left := Unused(memory, olderThan), memory.registered - Unused(memory, olderThan);
      && |left| == |memory.registered| - |unused| && (unused == {} ==> left == memory.registered)
      && (forall c :: c in memory.registered ==> (c in left <==> Kept(memory, c, olderThan)))
      && (forall c :: c in memory.registered && HoldsLive(issued, c, now) ==> c in left)
  {
    UnusedHoldNothing(memory, issued, olderThan, now);
    UnusedAreNotKept(memory, olderThan);
    DroppedCount(memory.registered, Unused(memory, olderThan));
  }

  /** A live entry issued to this client. */
  ghost predicate HoldsLive(issued: Issued, c: ClientId, now: real) {
    exists t: Token ::
      || Belongs(Lookup(Access, issued.access, t, now), c)
      || Belongs(Lookup(Refresh, issued.refresh, t, now), c)
      || Belongs(Lookup(Code, issued.codes, t, now), c)
  }

  predicate Belongs(entry: Option<Grant>, c: ClientId) {
    entry.Some? && entry.value.client == c
  }

  lemma LiveIsInUse(memory: Sections, issued: Issued, c: ClientId, now: real)
    requires AllAgree(memory, issued, now) && HoldsLive(issued, c, now)
    ensures c in InUse(memory)
  {
    var t: Token :|
      || Belongs(Lookup(Access, issued.access, t, now), c)
      || Belongs(Lookup(Refresh, issued.refresh, t, now), c)
      || Belongs(Lookup(Code, issued.codes, t, now), c);
    assert Lookup(Access, memory.access, Sha256(t), now) == Lookup(Access, issued.access, t, now);
    assert Lookup(Refresh, memory.refresh, Sha256(t), now) == Lookup(Refresh, issued.refresh, t, now);
    assert Lookup(Code, memory.codes, Sha256(t), now) == Lookup(Code, issued.codes, t, now);
  }
}

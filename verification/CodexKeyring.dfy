/**
 The chunked OAuth token store over an operating-system keyring.

 Every keyring call may raise; a call that raises leaves the keyring as it was.
 A ghost history records the keyring contents after each call, so that what a
 concurrent reader could load between any two calls is a statement about values.
 */
module CodexKeyring {
  import opened Wrappers
  import opened Text

  const ACTIVE_ACCOUNT := "oauth-token-bundle-v1"
  const CHUNK_PREFIX := "oauth-token-bundle-v1:"
  const CHUNK_CHARACTERS: nat := 1000
  const MAX_CHUNKS: nat := 64

  type Entries = map<string, string>

  /* ---------- The keyring ---------- */

  datatype DeleteResult = Deleted | PasswordDeleteError | OtherError

  class Keyring {
    var entries: Entries
    ghost var history: seq<Entries>
    ghost var faults: nat

    constructor ()
      ensures entries == map[] && history == [] && faults == 0
    {
      entries := map[];
      history := [];
      faults := 0;
    }

    method EnsureAvailable() returns (ok: bool)
      modifies this`faults
      ensures faults == old(faults) + if ok then 0 else 1
    {
      ok := *;
      if !ok { faults := faults + 1; }
    }

    method GetPassword(account: string) returns (r: Result<Option<string>, ()>)
      modifies this`faults
      ensures r.Ok? ==> r.value == (if account in entries then Some(entries[account]) else None)
      ensures faults == old(faults) + if r.Ok? then 0 else 1
    {
      var raised: bool := *;
      if raised {
        faults := faults + 1;
        return Err(());
      }
      return Ok(if account in entries then Some(entries[account]) else None);
    }

    method SetPassword(account: string, value: string) returns (ok: bool)
      modifies this
      ensures entries == if ok then old(entries)[account := value] else old(entries)
      ensures history == old(history) + [entries]
      ensures faults == old(faults) + if ok then 0 else 1
    {
      ok := *;
      if ok { entries := entries[account := value]; } else { faults := faults + 1; }
      history := history + [entries];
    }

    /** `PasswordDeleteError` reports a missing account, but backends raise it for other reasons too. */
    method DeletePassword(account: string) returns (r: DeleteResult)
      modifies this
      ensures entries == if r.Deleted? then old(entries) - {account} else old(entries)
      ensures r.Deleted? ==> account in old(entries)
      ensures history == old(history) + [entries]
      ensures faults == old(faults)
                        + if r.Deleted? || (r.PasswordDeleteError? && account !in old(entries)) then 0 else 1
    {
      var raised: bool := *;
      if account in entries && !raised {
        entries := entries - {account};
        r := Deleted;
      } else if account !in entries && !raised {
        r := PasswordDeleteError;
      } else {
        var missing: bool := *;
        r := if missing then PasswordDeleteError else OtherError;
        faults := faults + if missing && account !in entries then 0 else 1;
      }
      history := history + [entries];
    }
  }

  /* ---------- Accounts and the active entry ---------- */

  function ChunkAccount(generation: string, index: nat): string
  {
    CHUNK_PREFIX + generation + ":" + Decimal(index)
  }

  predicate ValidGeneration(value: string)
  {
    |value| == 32 && forall c :: c in value ==> '0' <= c <= '9' || 'a' <= c <= 'f'
  }

  lemma ChunkAccountInjective(g: string, i: nat, h: string, j: nat)
    requires ValidGeneration(g) && ValidGeneration(h)
    ensures ChunkAccount(g, i) == ChunkAccount(h, j) <==> g == h && i == j
    ensures ChunkAccount(g, i) != ACTIVE_ACCOUNT
  {
    if ChunkAccount(g, i) == ChunkAccount(h, j) {
      var n := |CHUNK_PREFIX|;
      assert g + [':'] + Decimal(i) == ChunkAccount(g, i)[n..];
      assert h + [':'] + Decimal(j) == ChunkAccount(h, j)[n..];
      FirstMarker(g, Decimal(i), h, Decimal(j), ':');
      DecimalInjective(i, j);
    }
  }

  datatype Manifest = Manifest(generation: string, count: nat)

  /** A top-level JSON field, as far as the checks distinguish its type. `whole` is the integer that a number with a
      fraction or an exponent is equal to, if any. */
  datatype Field =
    | Missing | Text(text: string) | Int(number: int) | Float(whole: Option<int>) | Bool(flag: bool) | Other
  {
    /** The integer the field compares equal to: `2.0 == 2` and `True == 1`. */
    function Equals(): Option<int>
    {
      match this
      case Int(n) => Some(n)
      case Float(whole) => whole
      case Bool(flag) => Some(if flag then 1 else 0)
      case _ => None
    }
  }

  datatype Payload = Payload(schemaVersion: Field, generation: Field, chunkCount: Field)

  function ManifestText(m: Manifest): string
  {
    "{\"schema_version\":2,\"generation\":\"" + m.generation + "\",\"chunk_count\":" + Decimal(m.count) + "}"
  }

  datatype TokenBundle = TokenBundle(
    accessToken: string,
    refreshToken: string,
    idToken: string,
    obtainedAt: int,
    importedAccountId: Option<string>)

  /** The JSON library and the bundle's own serialization. */
  datatype Codec = Codec(
    decodeObject: string -> Option<Payload>,
    readBundle: string -> Option<TokenBundle>,
    writeBundle: TokenBundle -> string)
  {
    ghost predicate Valid()
    {
      && (forall m: Manifest | ValidGeneration(m.generation) ::
            decodeObject(ManifestText(m)) == Some(Payload(Int(2), Text(m.generation), Int(m.count))))
      && (forall s: string | readBundle(s).Some? ::
            decodeObject(s).Some? && decodeObject(s).value.schemaVersion.Equals() == Some(1))
    }

    /** Bundles survive their own serialization. */
    ghost predicate RoundTrips(b: TokenBundle)
    {
      readBundle(writeBundle(b)) == Some(b)
    }

    function ParseManifest(value: string): (m: Option<Manifest>)
      ensures m.Some? ==> ValidGeneration(m.value.generation) && 1 <= m.value.count <= MAX_CHUNKS
      ensures m.Some? <==>
                && decodeObject(value).Some?
                && var p := decodeObject(value).value;
                   && p.schemaVersion.Equals() == Some(2) && p.generation.Text? && ValidGeneration(p.generation.text)
                   && p.chunkCount.Int? && 1 <= p.chunkCount.number <= MAX_CHUNKS
    {
      match decodeObject(value)
      case Some(Payload(version, Text(generation), Int(count))) =>
        if version.Equals() == Some(2) && ValidGeneration(generation) && 1 <= count <= MAX_CHUNKS
        then Some(Manifest(generation, count)) else None
      case _ => None
    }

    /** The generation the active entry names, if there is one and it is a manifest. */
    function Live(e: Entries): Option<Manifest>
    {
      if ACTIVE_ACCOUNT in e then ParseManifest(e[ACTIVE_ACCOUNT]) else None
    }

    function Decoded(text: string): Outcome
    {
      match readBundle(text) case Some(b) => Loaded(b) case None => Invalid
    }

    /** What `load` answers for these keyring contents when no read raises. */
    function Load(e: Entries): Outcome
    {
      if ACTIVE_ACCOUNT !in e then NotAuthenticated
      else match readBundle(e[ACTIVE_ACCOUNT])
        case Some(b) => Loaded(b)
        case None =>
          match ParseManifest(e[ACTIVE_ACCOUNT])
          case None => Invalid
          case Some(m) =>
            match Gather(e, m.generation, 0, m.count)
            case None => Invalid
            case Some(text) => Decoded(text)
    }
  }

  /** The manifest that `save` writes is read back exactly if its count is within the limit. */
  lemma ManifestRoundTrip(c: Codec, m: Manifest)
    requires c.Valid() && ValidGeneration(m.generation)
    ensures c.ParseManifest(ManifestText(m)) == (if 1 <= m.count <= MAX_CHUNKS then Some(m) else None)
  {
    assert c.decodeObject(ManifestText(m)) == Some(Payload(Int(2), Text(m.generation), Int(m.count)));
  }

  datatype Outcome = NotAuthenticated | Invalid | Loaded(bundle: TokenBundle)

  /** The chunks `from .. end` of a generation joined, if every one exists. */
  function Gather(e: Entries, generation: string, from: nat, end: nat): Option<string>
    requires from <= end
    decreases end - from
  {
    if from == end then Some("")
    else if ChunkAccount(generation, from) !in e then None
    else match Gather(e, generation, from + 1, end)
      case None => None
      case Some(rest) => Some(e[ChunkAccount(generation, from)] + rest)
  }

  /* ---------- Chunking ---------- */

  function Chunks(text: string): (chunks: seq<string>)
    ensures Concat(chunks) == text
    ensures |chunks| == (|text| + CHUNK_CHARACTERS - 1) / CHUNK_CHARACTERS
    ensures forall c :: c in chunks ==> 1 <= |c| <= CHUNK_CHARACTERS
  {
    if text == "" then []
    else if |text| <= CHUNK_CHARACTERS then
      assert Concat([text]) == text;
      [text]
    else
      var rest := Chunks(text[CHUNK_CHARACTERS..]);
      assert ([text[..CHUNK_CHARACTERS]] + rest)[1..] == rest;
      assert text == text[..CHUNK_CHARACTERS] + text[CHUNK_CHARACTERS..];
      [text[..CHUNK_CHARACTERS]] + rest
  }

  /** The chunk limit refuses exactly the texts above 64,000 characters. */
  lemma ChunkLimit(text: string)
    ensures |Chunks(text)| > MAX_CHUNKS <==> |text| > 64_000
    ensures |Chunks(text)| == 0 <==> text == ""
  {
  }

  /* ---------- What a loader can see ---------- */

  /** The contents agree on everything `load` would read from `e`. */
  ghost predicate SameView(c: Codec, e: Entries, f: Entries)
  {
    && (ACTIVE_ACCOUNT in e <==> ACTIVE_ACCOUNT in f)
    && (ACTIVE_ACCOUNT in e ==> e[ACTIVE_ACCOUNT] == f[ACTIVE_ACCOUNT])
    && (c.Live(e).Some? ==> forall i: nat | i < c.Live(e).value.count ::
          SameAt(e, f, ChunkAccount(c.Live(e).value.generation, i)))
  }

  ghost predicate SameAt(e: Entries, f: Entries, account: string)
  {
    (account in e <==> account in f) && (account in e ==> e[account] == f[account])
  }

  lemma {:induction false} GatherAgrees(e: Entries, f: Entries, g: string, from: nat, end: nat)
    requires from <= end
    requires forall i: nat | i < end :: SameAt(e, f, ChunkAccount(g, i))
    ensures Gather(e, g, from, end) == Gather(f, g, from, end)
    decreases end - from
  {
    if from < end {
      assert SameAt(e, f, ChunkAccount(g, from));
      GatherAgrees(e, f, g, from + 1, end);
    }
  }

  lemma SameViewSameOutcome(c: Codec, e: Entries, f: Entries)
    requires SameView(c, e, f)
    ensures c.Load(e) == c.Load(f) && c.Live(e) == c.Live(f)
  {
    if c.Live(e).Some? {
      var m := c.Live(e).value;
      GatherAgrees(e, f, m.generation, 0, m.count);
    }
  }

  ghost predicate IsChunkOf(account: string, g: string)
  {
    exists i: nat :: account == ChunkAccount(g, i)
  }

  ghost predicate DifferOnlyIn(e: Entries, f: Entries, g: string)
  {
    forall a: string | !IsChunkOf(a, g) :: SameAt(e, f, a)
  }

  /** Chunk accounts of a generation other than the live one are invisible to `load`. */
  lemma OtherGenerationInvisible(c: Codec, e: Entries, f: Entries, g: string)
    requires ValidGeneration(g)
    requires c.Live(e).None? || c.Live(e).value.generation != g
    requires DifferOnlyIn(e, f, g)
    ensures c.Load(e) == c.Load(f) && c.Live(e) == c.Live(f)
  {
    assert !IsChunkOf(ACTIVE_ACCOUNT, g) by {
      forall i: nat ensures ACTIVE_ACCOUNT != ChunkAccount(g, i) { ChunkAccountInjective(g, i, g, i); }
    }
    assert SameAt(e, f, ACTIVE_ACCOUNT);
    if c.Live(e).Some? {
      var m := c.Live(e).value;
      forall j: nat | j < m.count ensures SameAt(e, f, ChunkAccount(m.generation, j)) {
        forall i: nat ensures ChunkAccount(m.generation, j) != ChunkAccount(g, i) {
          ChunkAccountInjective(m.generation, j, g, i);
        }
        assert !IsChunkOf(ChunkAccount(m.generation, j), g);
      }
    }
    SameViewSameOutcome(c, e, f);
  }

  /** The chunks of a manifest, all present, in order. */
  predicate StoredChunks(e: Entries, m: Manifest, chunks: seq<string>)
  {
    |chunks| == m.count
    && forall i | 0 <= i < |chunks| :: ChunkAccount(m.generation, i) in e && e[ChunkAccount(m.generation, i)] == chunks[i]
  }

  lemma {:induction false} GatherExactly(e: Entries, m: Manifest, from: nat, chunks: seq<string>)
    requires from <= m.count == |chunks| && StoredChunks(e, m, chunks)
    ensures Gather(e, m.generation, from, m.count) == Some(Concat(chunks[from..]))
    decreases m.count - from
  {
    hide ChunkAccount;
    if from < m.count {
      GatherExactly(e, m, from + 1, chunks);
      assert chunks[from..] == [chunks[from]] + chunks[from + 1..];
    }
  }

  lemma {:induction false} GatheredChunks(e: Entries, m: Manifest, n: nat) returns (chunks: seq<string>)
    requires n <= m.count && forall i: nat | i < n :: ChunkAccount(m.generation, i) in e
    ensures |chunks| == n && forall i | 0 <= i < n :: e[ChunkAccount(m.generation, i)] == chunks[i]
  {
    hide ChunkAccount;
    chunks := [];
    if n > 0 {
      chunks := GatheredChunks(e, m, n - 1);
      chunks := chunks + [e[ChunkAccount(m.generation, n - 1)]];
    }
  }

  lemma {:induction false} GatherNeedsAll(e: Entries, g: string, from: nat, end: nat)
    requires from <= end && Gather(e, g, from, end).Some?
    ensures forall i: nat | from <= i < end :: ChunkAccount(g, i) in e
    decreases end - from
  {
    hide ChunkAccount;
    if from < end {
      GatherNeedsAll(e, g, from + 1, end);
    }
  }

  /** `load` finds nothing exactly without an active entry. It gives a bundle exactly if the active entry is one itself, or
      is a manifest whose chunks are all present and join to one. */
  lemma LoadExactly(c: Codec, e: Entries, b: TokenBundle)
    ensures c.Load(e) == NotAuthenticated <==> ACTIVE_ACCOUNT !in e
    ensures c.Load(e) == Loaded(b) <==>
              && ACTIVE_ACCOUNT in e
              && (|| c.readBundle(e[ACTIVE_ACCOUNT]) == Some(b)
                  || (&& c.readBundle(e[ACTIVE_ACCOUNT]) == None && c.ParseManifest(e[ACTIVE_ACCOUNT]).Some?
                      && exists chunks :: StoredChunks(e, c.ParseManifest(e[ACTIVE_ACCOUNT]).value, chunks)
                                          && c.readBundle(Concat(chunks)) == Some(b)))
  {
    hide ChunkAccount, Gather, Concat;
    if ACTIVE_ACCOUNT in e && c.readBundle(e[ACTIVE_ACCOUNT]) == None && c.ParseManifest(e[ACTIVE_ACCOUNT]).Some? {
      var m := c.ParseManifest(e[ACTIVE_ACCOUNT]).value;
      if Gather(e, m.generation, 0, m.count).Some? {
        GatherNeedsAll(e, m.generation, 0, m.count);
        var chunks := GatheredChunks(e, m, m.count);
        assert StoredChunks(e, m, chunks);
        GatherExactly(e, m, 0, chunks);
        assert chunks[0..] == chunks;
      }
      forall chunks | StoredChunks(e, m, chunks) ensures Gather(e, m.generation, 0, m.count) == Some(Concat(chunks)) {
        GatherExactly(e, m, 0, chunks);
        assert chunks[0..] == chunks;
      }
    }
  }

  /* ---------- Writing one generation ---------- */

  /** `e` with the first `k` chunks stored under `g`. */
  ghost function WithChunks(e: Entries, g: string, chunks: seq<string>, k: nat): Entries
    requires k <= |chunks|
  {
    if k == 0 then e else WithChunks(e, g, chunks, k - 1)[ChunkAccount(g, k - 1) := chunks[k - 1]]
  }

  ghost function AccountsOf(m: Manifest): set<string>
  {
    set i: nat | i < m.count :: ChunkAccount(m.generation, i)
  }

  lemma NoChunksYet(e: Entries, g: string, chunks: seq<string>)
    ensures WithChunks(e, g, chunks, 0) == e
  {
  }

  lemma OneChunkMore(e: Entries, g: string, chunks: seq<string>, k: nat)
    requires k < |chunks|
    ensures WithChunks(e, g, chunks, k + 1) == WithChunks(e, g, chunks, k)[ChunkAccount(g, k) := chunks[k]]
  {
  }

  lemma ChunkIsChunk(g: string, i: nat)
    requires ValidGeneration(g)
    ensures IsChunkOf(ChunkAccount(g, i), g)
  {
  }

  lemma {:induction false} WithChunksContents(e: Entries, g: string, chunks: seq<string>, k: nat)
    requires ValidGeneration(g) && k <= |chunks|
    ensures DifferOnlyIn(e, WithChunks(e, g, chunks, k), g)
    ensures forall i: nat | i < k :: ChunkAccount(g, i) in WithChunks(e, g, chunks, k)
                                     && WithChunks(e, g, chunks, k)[ChunkAccount(g, i)] == chunks[i]
    ensures WithChunks(e, g, chunks, k).Keys == e.Keys + AccountsOf(Manifest(g, k))
  {
    hide ChunkAccount, IsChunkOf;
    if k > 0 {
      ChunkIsChunk(g, k - 1);
      WithChunksContents(e, g, chunks, k - 1);
      forall i: nat | i < k - 1 ensures ChunkAccount(g, i) != ChunkAccount(g, k - 1) {
        ChunkAccountInjective(g, i, g, k - 1);
      }
      var last := {ChunkAccount(g, k - 1)};
      assert AccountsOf(Manifest(g, k)) == AccountsOf(Manifest(g, k - 1)) + last;
    }
  }

  lemma {:induction false} GatherStored(e: Entries, g: string, chunks: seq<string>, from: nat)
    requires from <= |chunks|
    requires forall i: nat | i < |chunks| ::
               ChunkAccount(g, i) in e && e[ChunkAccount(g, i)] == chunks[i]
    ensures Gather(e, g, from, |chunks|) == Some(Concat(chunks[from..]))
    decreases |chunks| - from
  {
    if from < |chunks| {
      GatherStored(e, g, chunks, from + 1);
      assert chunks[from..][1..] == chunks[from + 1..];
    }
  }

  /** Once the active entry names a generation whose chunks all exist, `load` decodes exactly their text. */
  lemma ActivatedOutcome(c: Codec, e: Entries, g: string, text: string)
    requires c.Valid() && ValidGeneration(g) && 1 <= |Chunks(text)| <= MAX_CHUNKS
    requires ACTIVE_ACCOUNT in e && e[ACTIVE_ACCOUNT] == ManifestText(Manifest(g, |Chunks(text)|))
    requires forall i: nat | i < |Chunks(text)| ::
               ChunkAccount(g, i) in e && e[ChunkAccount(g, i)] == Chunks(text)[i]
    ensures c.Live(e) == Some(Manifest(g, |Chunks(text)|))
    ensures c.Load(e) == c.Decoded(text)
  {
    var m := Manifest(g, |Chunks(text)|);
    assert c.decodeObject(ManifestText(m)) == Some(Payload(Int(2), Text(g), Int(m.count)));
    assert c.readBundle(ManifestText(m)).None?;
    GatherStored(e, g, Chunks(text), 0);
    assert Chunks(text)[0..] == Chunks(text);
  }

  /** The keyring holds nothing, or exactly one complete generation and its manifest. */
  ghost predicate Clean(c: Codec, e: Entries)
  {
    if ACTIVE_ACCOUNT in e
    then c.Live(e).Some? && e.Keys == {ACTIVE_ACCOUNT} + AccountsOf(c.Live(e).value)
    else e.Keys == {}
  }

  /** A loader at any recorded point from `from` up to `end` gets `outcome`. */
  ghost predicate Shows(
    c: Codec, history: seq<Entries>, from: nat, end: nat, outcome: Outcome)
    requires end <= |history|
  {
    forall k | from <= k < end :: c.Load(history[k]) == outcome
  }

  /** The recorded contents show `before` up to position `at`, and `after` from there on. */
  ghost predicate SwitchesAt(
    c: Codec, history: seq<Entries>, from: nat, at: nat, before: Outcome, after: Outcome)
  {
    && from <= at <= |history|
    && Shows(c, history, from, at, before)
    && Shows(c, history, at, |history|, after)
  }

  /** The history records the present contents last, or records nothing and the contents are unchanged. */
  ghost predicate LastRecorded(before: Entries, recorded: nat, now: Entries, history: seq<Entries>)
  {
    && recorded <= |history|
    && now == if |history| > recorded then history[|history| - 1] else before
  }

  ghost predicate Fresh(c: Codec, e: Entries, generation: string)
  {
    c.Live(e).None? || c.Live(e).value.generation != generation
  }

  /* ---------- The token store ---------- */

  datatype StoreError =
    | Unavailable
    | TooLarge
    | InvalidGeneration
    | ReadFailed
    | NotStored
    | NotRemoved
    | NotAuthenticatedError
    | InvalidCredentials

  class TokenStore {
    const keyring: Keyring
    const codec: Codec

    constructor (keyring: Keyring, codec: Codec)
      ensures this.keyring == keyring && this.codec == codec
    {
      this.keyring := keyring;
      this.codec := codec;
    }

    method DeleteAccount(account: string, missingOk: bool, suppressErrors: bool) returns (ok: bool)
      modifies keyring
      ensures keyring.entries == old(keyring.entries) || keyring.entries == old(keyring.entries) - {account}
      ensures keyring.history == old(keyring.history) + [keyring.entries]
      ensures keyring.faults >= old(keyring.faults)
      ensures suppressErrors ==> ok
      ensures !ok ==> keyring.entries == old(keyring.entries)
      ensures ok && !missingOk && !suppressErrors ==> account in old(keyring.entries) && account !in keyring.entries
      ensures keyring.faults == old(keyring.faults) ==> account !in keyring.entries
      ensures keyring.faults == old(keyring.faults) && (missingOk || account in old(keyring.entries)) ==> ok
      ensures keyring.faults == old(keyring.faults) ==> keyring.entries == old(keyring.entries) - {account}
    {
      var r := keyring.DeletePassword(account);
      match r
      case Deleted => ok := true;
      case PasswordDeleteError => ok := missingOk || suppressErrors;
      case OtherError => ok := suppressErrors;
      assert account !in old(keyring.entries) ==> old(keyring.entries) - {account} == old(keyring.entries);
    }

    /** Best-effort removal of the first `count` chunks of generation `g`, errors suppressed. */
    method DiscardChunks(g: string, count: nat)
      requires ValidGeneration(g)
      modifies keyring
      ensures DifferOnlyIn(old(keyring.entries), keyring.entries, g)
      ensures old(keyring.history) <= keyring.history
      ensures LastRecorded(old(keyring.entries), |old(keyring.history)|, keyring.entries, keyring.history)
      ensures forall k | |old(keyring.history)| <= k < |keyring.history| ::
                DifferOnlyIn(old(keyring.entries), keyring.history[k], g)
      ensures keyring.faults >= old(keyring.faults)
      ensures keyring.faults == old(keyring.faults) ==>
                keyring.entries == old(keyring.entries) - AccountsOf(Manifest(g, count))
    {
      ghost var e0, h0, f0 := keyring.entries, keyring.history, keyring.faults;
      var index := 0;
      while index < count
        invariant 0 <= index <= count
        invariant DifferOnlyIn(e0, keyring.entries, g)
        invariant h0 <= keyring.history
        invariant LastRecorded(e0, |h0|, keyring.entries, keyring.history)
        invariant forall k | |h0| <= k < |keyring.history| :: DifferOnlyIn(e0, keyring.history[k], g)
        invariant keyring.faults >= f0
        invariant keyring.faults == f0 ==> keyring.entries == e0 - AccountsOf(Manifest(g, index))
      {
        assert IsChunkOf(ChunkAccount(g, index), g);
        assert AccountsOf(Manifest(g, index + 1)) == AccountsOf(Manifest(g, index)) + {ChunkAccount(g, index)};
        var _ := DeleteAccount(ChunkAccount(g, index), true, true);
        index := index + 1;
      }
    }

    /** Store the chunks in order, stopping at the first call that raises. */
    method WriteChunks(generation: string, chunks: seq<string>) returns (stored: bool, written: seq<string>)
      requires ValidGeneration(generation)
      modifies keyring
      ensures |written| <= |chunks| && (stored ==> |written| == |chunks|)
      ensures forall j | 0 <= j < |written| :: written[j] == ChunkAccount(generation, j)
      ensures keyring.entries == WithChunks(old(keyring.entries), generation, chunks, |written|)
      ensures DifferOnlyIn(old(keyring.entries), keyring.entries, generation)
      ensures old(keyring.history) <= keyring.history
      ensures LastRecorded(old(keyring.entries), |old(keyring.history)|, keyring.entries, keyring.history)
      ensures forall k | |old(keyring.history)| <= k < |keyring.history| ::
                DifferOnlyIn(old(keyring.entries), keyring.history[k], generation)
      ensures keyring.faults >= old(keyring.faults) && (!stored <==> keyring.faults > old(keyring.faults))
    {
      hide DifferOnlyIn, AccountsOf, ChunkAccount, ValidGeneration, WithChunks;
      ghost var e0, h0, f0 := keyring.entries, keyring.history, keyring.faults;
      NoChunksYet(e0, generation, chunks);
      stored, written := true, [];
      WithChunksContents(e0, generation, chunks, 0);
      while stored && |written| < |chunks|
        invariant |written| <= |chunks|
        invariant forall j | 0 <= j < |written| :: written[j] == ChunkAccount(generation, j)
        invariant keyring.entries == WithChunks(e0, generation, chunks, |written|)
        invariant h0 <= keyring.history
        invariant keyring.faults >= f0 && (!stored <==> keyring.faults > f0)
        invariant LastRecorded(e0, |h0|, keyring.entries, keyring.history)
        invariant forall k | |h0| <= k < |keyring.history| :: DifferOnlyIn(e0, keyring.history[k], generation)
        decreases stored, |chunks| - |written|
      {
        var account := ChunkAccount(generation, |written|);
        WithChunksContents(e0, generation, chunks, |written|);
        WithChunksContents(e0, generation, chunks, |written| + 1);
        OneChunkMore(e0, generation, chunks, |written|);
        stored := keyring.SetPassword(account, chunks[|written|]);
        if stored { written := written + [account]; }
      }
      WithChunksContents(e0, generation, chunks, |written|);
    }

    /** Store the chunks, then the manifest naming them; discard what was written if any call raises. */
    method Activate(generation: string, text: string) returns (stored: bool, ghost at: nat)
      requires codec.Valid() && ValidGeneration(generation) && 1 <= |Chunks(text)| <= MAX_CHUNKS
      modifies keyring
      ensures old(keyring.history) <= keyring.history && keyring.faults >= old(keyring.faults)
      ensures !stored <==> keyring.faults > old(keyring.faults)
      ensures stored ==> |old(keyring.history)| <= at == |keyring.history| - 1
      ensures !stored ==> at == |keyring.history|
      ensures LastRecorded(old(keyring.entries), |old(keyring.history)|, keyring.entries, keyring.history)
      ensures stored ==> codec.Live(keyring.entries) == Some(Manifest(generation, |Chunks(text)|))
      ensures stored ==> codec.Load(keyring.entries) == codec.Decoded(text)
      ensures stored ==>
                keyring.entries.Keys ==
                old(keyring.entries).Keys + AccountsOf(Manifest(generation, |Chunks(text)|)) + {ACTIVE_ACCOUNT}
      ensures !stored ==> SameAt(old(keyring.entries), keyring.entries, ACTIVE_ACCOUNT)
      ensures !stored && Fresh(codec, old(keyring.entries), generation) ==>
                codec.Load(keyring.entries) == codec.Load(old(keyring.entries))
      ensures Fresh(codec, old(keyring.entries), generation) ==>
                Shows(codec, keyring.history, |old(keyring.history)|, at, codec.Load(old(keyring.entries)))
    {
      hide DifferOnlyIn, IsChunkOf, AccountsOf, WithChunks, ManifestText, Chunks, Shows, ValidGeneration, Fresh, Codec.Load,
        Codec.Live, Codec.Valid;
      ghost var e0, h0 := keyring.entries, keyring.history;
      var chunks := Chunks(text);
      var written;
      stored, written := WriteChunks(generation, chunks);
      if stored {
        stored := keyring.SetPassword(ACTIVE_ACCOUNT, ManifestText(Manifest(generation, |chunks|)));
      }
      if stored {
        at := |keyring.history| - 1;
        DiffersNowhere(e0, generation);
        Unactivated(codec, e0, e0, keyring.history, |h0|, at, generation);
        Activated(codec, e0, keyring.entries, generation, text);
      } else {
        ghost var partial, mid := keyring.entries, |keyring.history|;
        DiscardChunks(generation, |written|);
        at := |keyring.history|;
        DifferThrough(e0, partial, keyring.entries, keyring.history, |h0|, mid, generation);
        Unactivated(codec, e0, keyring.entries, keyring.history, |h0|, at, generation);
      }
    }

    /** Best-effort removal of the superseded generation: no loader can tell. */
    method DropStale(stale: Manifest, live: Manifest)
      requires ValidGeneration(stale.generation) && ValidGeneration(live.generation)
      requires stale.generation != live.generation && codec.Live(keyring.entries) == Some(live)
      modifies keyring
      ensures old(keyring.history) <= keyring.history && keyring.faults >= old(keyring.faults)
      ensures LastRecorded(old(keyring.entries), |old(keyring.history)|, keyring.entries, keyring.history)
      ensures codec.Live(keyring.entries) == Some(live)
      ensures codec.Load(keyring.entries) == codec.Load(old(keyring.entries))
      ensures Shows(codec, keyring.history, |old(keyring.history)|, |keyring.history|,
                    codec.Load(old(keyring.entries)))
      ensures keyring.faults == old(keyring.faults) ==>
                keyring.entries.Keys == old(keyring.entries).Keys - AccountsOf(stale)
    {
      hide DifferOnlyIn, AccountsOf;
      ghost var e1, h1 := keyring.entries, |keyring.history|;
      DiscardChunks(stale.generation, stale.count);
      Unactivated(codec, e1, keyring.entries, keyring.history, h1, |keyring.history|, stale.generation);
    }

    method Save(bundle: TokenBundle, generation: string) returns (r: Result<(), StoreError>, ghost activated: nat)
      requires codec.Valid()
      modifies keyring
      ensures old(keyring.history) <= keyring.history && keyring.faults >= old(keyring.faults)
      ensures LastRecorded(old(keyring.entries), |old(keyring.history)|, keyring.entries, keyring.history)
      // Old or new at every call, new exactly when the save returns.
      ensures Fresh(codec, old(keyring.entries), generation) ==>
                SwitchesAt(codec, keyring.history, |old(keyring.history)|, activated,
                           codec.Load(old(keyring.entries)), codec.Decoded(codec.writeBundle(bundle)))
      ensures r.Ok? ==> activated < |keyring.history|
      ensures r.Err? ==> activated == |keyring.history|
      ensures r.Err? && Fresh(codec, old(keyring.entries), generation) ==>
                codec.Load(keyring.entries) == codec.Load(old(keyring.entries))
      ensures r.Ok? ==> codec.Load(keyring.entries) == codec.Decoded(codec.writeBundle(bundle))
      ensures r.Ok? && codec.RoundTrips(bundle) ==> codec.Load(keyring.entries) == Loaded(bundle)
      // The active entry.
      ensures r.Ok? ==> codec.Live(keyring.entries) == Some(Manifest(generation, |Chunks(codec.writeBundle(bundle))|))
      ensures r.Err? ==> SameAt(old(keyring.entries), keyring.entries, ACTIVE_ACCOUNT)
      // Which refusals are final, and what a run without faults leaves behind.
      ensures r.Ok? ==> 1 <= |codec.writeBundle(bundle)| <= 64_000 && ValidGeneration(generation)
      ensures keyring.faults == old(keyring.faults) ==>
                (r.Ok? <==> 1 <= |codec.writeBundle(bundle)| <= 64_000 && ValidGeneration(generation))
      ensures keyring.faults == old(keyring.faults) && r.Err? ==> keyring.entries == old(keyring.entries)
      ensures keyring.faults == old(keyring.faults) && r.Ok?
              && Clean(codec, old(keyring.entries)) && Fresh(codec, old(keyring.entries), generation) ==>
                Clean(codec, keyring.entries)
    {
      hide AccountsOf, ManifestText, Clean, SwitchesAt, Shows, LastRecorded, Chunks, Gather, Codec.Load, Codec.Live, Codec.ParseManifest;
      ghost var e0, h0 := keyring.entries, |keyring.history|;
      activated := |keyring.history|;
      assert LastRecorded(e0, h0, e0, keyring.history) && Shows(codec, keyring.history, h0, h0, codec.Load(e0)) by {
        NothingRecorded(codec, e0, keyring.history);
      }
      NotSwitched(codec, keyring.history, h0, codec.Load(e0), codec.Decoded(codec.writeBundle(bundle)));
      var available := keyring.EnsureAvailable();
      if !available { return Err(Unavailable), activated; }
      var serialized := codec.writeBundle(bundle);
      var chunks := Chunks(serialized);
      ChunkLimit(serialized);
      if |chunks| == 0 || |chunks| > MAX_CHUNKS { return Err(TooLarge), activated; }
      if !ValidGeneration(generation) { return Err(InvalidGeneration), activated; }
      var previous := keyring.GetPassword(ACTIVE_ACCOUNT);
      if previous.Err? { return Err(ReadFailed), activated; }
      var previousManifest :=
        if previous.value.Some? then codec.ParseManifest(previous.value.value) else None;
      assert previousManifest == codec.Live(e0) by { LiveIsParsed(codec, e0); }

      var stored := false;
      stored, activated := Activate(generation, serialized);
      ghost var e1, h1 := keyring.entries, keyring.history;
      if !stored {
        if Fresh(codec, e0, generation) {
          NotSwitched(codec, h1, h0, codec.Load(e0), codec.Decoded(serialized));
        }
        return Err(NotStored), activated;
      }
      NothingRecorded(codec, e1, h1);
      if previousManifest.Some? && previousManifest.value.generation != generation {
        DropStale(previousManifest.value, Manifest(generation, |chunks|));
        RecordedThrough(e0, h0, e1, h1, keyring.entries, keyring.history);
        if keyring.faults == old(keyring.faults) && Clean(codec, e0) {
          CleanSuccession(codec, e0, e1, keyring.entries, Manifest(generation, |chunks|));
        }
      } else {
        if Fresh(codec, e0, generation) && Clean(codec, e0) {
          CleanStart(codec, e0, e1, Manifest(generation, |chunks|));
        }
      }
      if Fresh(codec, e0, generation) {
        LastShown(codec, e0, h0, e1, h1);
        Switched(codec, h1, keyring.history, h0, codec.Load(e0), codec.Decoded(serialized));
      }
      return Ok(()), activated;
    }

    method LoadBundle() returns (r: Result<TokenBundle, StoreError>)
      modifies keyring`faults
      ensures keyring.faults >= old(keyring.faults)
      ensures r.Ok? ==> codec.Load(keyring.entries) == Loaded(r.value)
      ensures r == Err(NotAuthenticatedError) ==> codec.Load(keyring.entries) == NotAuthenticated
      ensures r == Err(InvalidCredentials) ==> codec.Load(keyring.entries) == Invalid
      ensures r.Err? && r.error !in {NotAuthenticatedError, InvalidCredentials} ==>
                keyring.faults > old(keyring.faults)
    {
      var available := keyring.EnsureAvailable();
      if !available { return Err(Unavailable); }
      var active := keyring.GetPassword(ACTIVE_ACCOUNT);
      if active.Err? { return Err(ReadFailed); }
      if active.value.None? { return Err(NotAuthenticatedError); }
      var direct := codec.readBundle(active.value.value);
      if direct.Some? { return Ok(direct.value); }
      var manifest := codec.ParseManifest(active.value.value);
      if manifest.None? { return Err(InvalidCredentials); }
      var g, count := manifest.value.generation, manifest.value.count;
      var text, index := "", 0;
      ghost var whole := Gather(keyring.entries, g, 0, count);
      assert whole.Some? ==> text + whole.value == whole.value;
      while index < count
        invariant 0 <= index <= count && keyring.faults >= old(keyring.faults)
        invariant Gather(keyring.entries, g, 0, count) ==
                  match Gather(keyring.entries, g, index, count)
                  case None => None
                  case Some(rest) => Some(text + rest)
      {
        var chunk := keyring.GetPassword(ChunkAccount(g, index));
        if chunk.Err? { return Err(ReadFailed); }
        if chunk.value.None? { return Err(InvalidCredentials); }
        var next := Gather(keyring.entries, g, index + 1, count);
        assert next.Some? ==> text + (chunk.value.value + next.value) == text + chunk.value.value + next.value;
        text, index := text + chunk.value.value, index + 1;
      }
      assert text + "" == text;
      var joined := codec.readBundle(text);
      if joined.None? { return Err(InvalidCredentials); }
      return Ok(joined.value);
    }

    /** Not atomic: chunks go first, so an interrupted removal loads as invalid, never as something else. */
    method Delete(missingOk: bool) returns (r: Result<(), StoreError>)
      requires codec.Valid()
      modifies keyring
      ensures old(keyring.history) <= keyring.history && keyring.faults >= old(keyring.faults)
      ensures LastRecorded(old(keyring.entries), |old(keyring.history)|, keyring.entries, keyring.history)
      ensures Degrades(codec, keyring.history, |old(keyring.history)|, codec.Load(old(keyring.entries)))
      // Atomic exactly if the active entry is no manifest; an interrupted removal keeps a usable bundle only if it
      // changed nothing.
      ensures codec.Live(old(keyring.entries)).None? ==>
                OldOrOut(codec, keyring.history, |old(keyring.history)|, codec.Load(old(keyring.entries)))
      ensures r.Ok? && ACTIVE_ACCOUNT in old(keyring.entries) && codec.Load(old(keyring.entries)) != Invalid ==>
                (OldOrOut(codec, keyring.history, |old(keyring.history)|, codec.Load(old(keyring.entries)))
                 <==> codec.Live(old(keyring.entries)).None?)
      ensures ACTIVE_ACCOUNT in keyring.entries && codec.Load(old(keyring.entries)) != Invalid ==>
                (codec.Load(keyring.entries) == codec.Load(old(keyring.entries))
                 <==> keyring.entries == old(keyring.entries))
      ensures SameAt(old(keyring.entries), keyring.entries, ACTIVE_ACCOUNT) || ACTIVE_ACCOUNT !in keyring.entries
      ensures r.Ok? && (!missingOk || keyring.faults == old(keyring.faults)) ==> ACTIVE_ACCOUNT !in keyring.entries
      ensures keyring.faults == old(keyring.faults) && Clean(codec, old(keyring.entries)) ==>
                && (r.Ok? <==> missingOk || ACTIVE_ACCOUNT in old(keyring.entries))
                && keyring.entries == map[]
    {
      hide Codec.ParseManifest, Gather, Codec.Load, Degrades, OldOrOut, LastRecorded;
      RecordedNothing(codec, keyring.entries, keyring.history);
      ghost var e0, h0, f0 := keyring.entries, |keyring.history|, keyring.faults;
      var available := keyring.EnsureAvailable();
      if !available { return Err(Unavailable); }
      var active := keyring.GetPassword(ACTIVE_ACCOUNT);
      if active.Err? { return Err(ReadFailed); }
      if active.value.None? { return if missingOk then Ok(()) else Err(NotAuthenticatedError); }
      var manifest := codec.ParseManifest(active.value.value);
      if manifest.Some? {
        var removed := DeleteChunks(manifest.value);
        if !removed { return Err(NotRemoved); }
        if codec.Load(e0) != Invalid { ChunksGone(codec, e0, keyring.entries, manifest.value); }
      }
      ghost var e1, h1 := keyring.entries, keyring.history;
      var removed := DeleteAccount(ACTIVE_ACCOUNT, missingOk, false);
      assert keyring.history == h1 + [keyring.entries];
      ActiveRemoved(codec, e0, h0, e1, h1, keyring.entries);
      return if removed then Ok(()) else Err(NotRemoved);
    }

    method DeleteChunks(m: Manifest) returns (removed: bool)
      requires codec.Valid() && codec.Live(keyring.entries) == Some(m)
      modifies keyring
      ensures old(keyring.history) <= keyring.history && keyring.faults >= old(keyring.faults)
      ensures LastRecorded(old(keyring.entries), |old(keyring.history)|, keyring.entries, keyring.history)
      ensures Degrades(codec, keyring.history, |old(keyring.history)|, codec.Load(old(keyring.entries)))
      ensures codec.Load(keyring.entries) in {codec.Load(old(keyring.entries)), Invalid}
      // Not atomic: the first removed chunk already makes a usable bundle unusable.
      ensures codec.Load(old(keyring.entries)) != Invalid ==>
                (codec.Load(keyring.entries) == codec.Load(old(keyring.entries))
                 <==> keyring.entries == old(keyring.entries))
      ensures removed ==> |keyring.history| > |old(keyring.history)|
      ensures SameAt(old(keyring.entries), keyring.entries, ACTIVE_ACCOUNT)
      ensures removed ==> keyring.entries == old(keyring.entries) - AccountsOf(m)
      ensures keyring.faults == old(keyring.faults) && AccountsOf(m) <= old(keyring.entries).Keys ==> removed
    {
      hide Codec.Load, Codec.ParseManifest;
      ghost var e0, h0, f0 := keyring.entries, keyring.history, keyring.faults;
      ActiveIsNoChunk(m.generation);
      var index := 0;
      while index < m.count
        invariant 0 <= index <= m.count
        invariant h0 <= keyring.history && keyring.faults >= f0
        invariant LastRecorded(e0, |h0|, keyring.entries, keyring.history) && |keyring.history| >= |h0| + index
        invariant Degrades(codec, keyring.history, |h0|, codec.Load(e0))
        invariant keyring.entries == e0 - AccountsOf(Manifest(m.generation, index))
        invariant ACTIVE_ACCOUNT in keyring.entries && SameAt(e0, keyring.entries, ACTIVE_ACCOUNT)
      {
        var account := ChunkAccount(m.generation, index);
        ghost var before := keyring.entries;
        assert IsChunkOf(account, m.generation);
        assert AccountsOf(Manifest(m.generation, index + 1)) ==
               AccountsOf(Manifest(m.generation, index)) + {account};
        ChunkStillThere(m, index, e0, before);
        var ok := DeleteAccount(account, false, false);
        if keyring.entries != before {
          MissingChunk(codec, keyring.entries, m, index);
        } else {
          if index > 0 { MissingChunk(codec, keyring.entries, m, index - 1); } else { assert before == e0; }
        }
        if !ok { return false; }
        index := index + 1;
      }
      assert m == Manifest(m.generation, index);
      if index > 0 { MissingChunk(codec, keyring.entries, m, index - 1); }
      return true;
    }
  }

  /** A save that fails after storing a chunk keeps a usable bundle usable exactly if it used a fresh generation. */
  lemma RollbackKeepsBundle(c: Codec, e: Entries, g: string, chunks: seq<string>, k: nat)
    requires c.Valid() && ValidGeneration(g) && 1 <= k <= |chunks|
    requires c.Load(e) != Invalid
    ensures c.Load(WithChunks(e, g, chunks, k) - AccountsOf(Manifest(g, k))) == c.Load(e) <==> Fresh(c, e, g)
  {
    var f := WithChunks(e, g, chunks, k) - AccountsOf(Manifest(g, k));
    WithChunksContents(e, g, chunks, k);
    forall a: string | !IsChunkOf(a, g) ensures SameAt(e, f, a) {
      assert SameAt(e, WithChunks(e, g, chunks, k), a);
      assert a !in AccountsOf(Manifest(g, k));
    }
    if Fresh(c, e, g) {
      OtherGenerationInvisible(c, e, f, g);
    } else {
      ActiveIsNoChunk(g);
      assert SameAt(e, f, ACTIVE_ACCOUNT);
      assert ChunkAccount(g, 0) in AccountsOf(Manifest(g, k));
      MissingChunk(c, f, c.Live(f).value, 0);
    }
  }

  /* ---------- Any sequence of logins and logouts ---------- */

  datatype Operation = SaveOperation(bundle: TokenBundle, generation: string) | DeleteOperation(missingOk: bool)

  /** What the last save that returned activated, or `initial` if none did. */
  ghost function LastActivated(c: Codec, initial: Outcome, operations: seq<Operation>, returned: seq<bool>): Outcome
    requires |returned| <= |operations|
  {
    if returned == [] then initial
    else
      var n := |returned| - 1;
      if returned[n] && operations[n].SaveOperation? then c.Decoded(c.writeBundle(operations[n].bundle))
      else LastActivated(c, initial, operations, returned[..n])
  }

  ghost predicate GenerationsNeverReused(c: Codec, e: Entries, operations: seq<Operation>)
  {
    && (forall i | 0 <= i < |operations| && operations[i].SaveOperation? ::
          Fresh(c, e, operations[i].generation))
    && (forall i, j | 0 <= i < j < |operations| && operations[i].SaveOperation? && operations[j].SaveOperation? ::
          operations[i].generation != operations[j].generation)
  }

  /** At the recorded points `from .. end` a loader gets the bundle that was active before the operation, the one that
      the operation activates, or nothing usable. */
  ghost predicate ShowsWhole(
    c: Codec, history: seq<Entries>, from: nat, end: nat, active: Outcome, operation: Operation)
    requires end <= |history|
  {
    forall k | from <= k < end ::
      || c.Load(history[k]) in {active, Invalid, NotAuthenticated}
      || (operation.SaveOperation? && c.Load(history[k]) == c.Decoded(c.writeBundle(operation.bundle)))
  }

  /** One login or logout: a loader between any two of its calls gets the bundle active before it, the one it
      activates, or nothing usable. */
  method Perform(store: TokenStore, operation: Operation, ghost active: Outcome)
    returns (ok: bool, ghost active': Outcome)
    requires store.codec.Valid()
    requires store.codec.Load(store.keyring.entries) in {active, Invalid, NotAuthenticated}
    requires operation.SaveOperation? ==> Fresh(store.codec, store.keyring.entries, operation.generation)
    modifies store.keyring
    ensures old(store.keyring.history) <= store.keyring.history
    ensures store.keyring.faults >= old(store.keyring.faults)
    ensures active' == if ok && operation.SaveOperation?
                       then store.codec.Decoded(store.codec.writeBundle(operation.bundle)) else active
    ensures store.codec.Load(store.keyring.entries) in {active', Invalid, NotAuthenticated}
    ensures ShowsWhole(store.codec, store.keyring.history, |old(store.keyring.history)|, |store.keyring.history|,
                       active, operation)
    ensures store.codec.Live(store.keyring.entries) in {store.codec.Live(old(store.keyring.entries)), None}
            || (operation.SaveOperation? && store.codec.Live(store.keyring.entries).Some?
                && store.codec.Live(store.keyring.entries).value.generation == operation.generation)
    ensures store.keyring.faults == old(store.keyring.faults) && Clean(store.codec, old(store.keyring.entries)) ==>
              Clean(store.codec, store.keyring.entries)
  {
    hide Clean, AccountsOf, Codec.Load, Gather, LastRecorded;
    active' := active;
    match operation {
      case SaveOperation(bundle, generation) =>
        var r, at := store.Save(bundle, generation);
        ok := r.Ok?;
        if ok { active' := store.codec.Decoded(store.codec.writeBundle(bundle)); }
      case DeleteOperation(missingOk) =>
        var r := store.Delete(missingOk);
        ok := r.Ok?;
        DegradedStays(store.codec, old(store.keyring.entries), |old(store.keyring.history)|,
                      store.keyring.entries, store.keyring.history);
        CleanWhenEmpty(store.codec);
    }
  }

  lemma DegradedStays(c: Codec, e: Entries, from: nat, f: Entries, history: seq<Entries>)
    requires LastRecorded(e, from, f, history) && Degrades(c, history, from, c.Load(e))
    ensures c.Load(f) in {c.Load(e), Invalid, NotAuthenticated}
  {
  }

  /** Between its marks the i-th operation shows the bundle last activated before it, what it activates, or nothing
      usable. */
  ghost predicate StepShowsWhole(
    c: Codec, history: seq<Entries>, marks: seq<nat>, initial: Outcome, operations: seq<Operation>, returned: seq<bool>,
    i: int)
    requires |marks| == |returned| + 1 && |returned| <= |operations| && 0 <= i < |returned|
  {
    && marks[i] <= marks[i + 1] <= |history|
    && ShowsWhole(c, history, marks[i], marks[i + 1], LastActivated(c, initial, operations, returned[..i]), operations[i])
  }

  ghost predicate EachShowsWhole(
    c: Codec, history: seq<Entries>, marks: seq<nat>, initial: Outcome, operations: seq<Operation>, returned: seq<bool>)
    requires |marks| == |returned| + 1 && |returned| <= |operations|
  {
    forall i | 0 <= i < |returned| :: StepShowsWhole(c, history, marks, initial, operations, returned, i)
  }

  lemma OneMoreShowsWhole(
    c: Codec, h: seq<Entries>, history: seq<Entries>, marks: seq<nat>, initial: Outcome, operations: seq<Operation>,
    returned: seq<bool>, ok: bool)
    requires |marks| == |returned| + 1 && |returned| < |operations|
    requires EachShowsWhole(c, h, marks, initial, operations, returned) && h <= history && marks[|returned|] == |h|
    requires ShowsWhole(c, history, |h|, |history|, LastActivated(c, initial, operations, returned),
                        operations[|returned|])
    ensures EachShowsWhole(c, history, marks + [|history|], initial, operations, returned + [ok])
  {
    hide Codec.Load, LastActivated;
    var n, after, all := |returned|, marks + [|history|], returned + [ok];
    assert all[..n] == returned;
    forall i | 0 <= i < |all| ensures StepShowsWhole(c, history, after, initial, operations, all, i) {
      if i < n {
        assert StepShowsWhole(c, h, marks, initial, operations, returned, i);
        assert all[..i] == returned[..i] && after[i] == marks[i] && after[i + 1] == marks[i + 1];
      }
    }
  }

  /** What is active is the initial outcome or one saved bundle as a whole. */
  lemma {:induction false} ActiveIsWhole(c: Codec, initial: Outcome, operations: seq<Operation>, returned: seq<bool>)
    requires |returned| <= |operations|
    ensures LastActivated(c, initial, operations, returned) == initial
            || exists i :: 0 <= i < |returned| && operations[i].SaveOperation? && returned[i]
                 && LastActivated(c, initial, operations, returned) == c.Decoded(c.writeBundle(operations[i].bundle))
  {
    if returned != [] {
      ActiveIsWhole(c, initial, operations, returned[..|returned| - 1]);
    }
  }

  /** Any sequence of logins and logouts, with faults anywhere; `marks` divides the recorded history by operation. */
  method Session(store: TokenStore, operations: seq<Operation>) returns (returned: seq<bool>, ghost marks: seq<nat>)
    requires store.codec.Valid()
    requires GenerationsNeverReused(store.codec, store.keyring.entries, operations)
    modifies store.keyring
    ensures |returned| == |operations| && |marks| == |operations| + 1
    ensures marks[0] == |old(store.keyring.history)| && marks[|operations|] == |store.keyring.history|
    ensures EachShowsWhole(store.codec, store.keyring.history, marks, store.codec.Load(old(store.keyring.entries)),
                           operations, returned)
    ensures store.codec.Load(store.keyring.entries) in
              {LastActivated(store.codec, store.codec.Load(old(store.keyring.entries)), operations, returned),
               Invalid, NotAuthenticated}
    ensures store.keyring.faults == old(store.keyring.faults) && Clean(store.codec, old(store.keyring.entries)) ==>
              Clean(store.codec, store.keyring.entries)
  {
    hide Clean, AccountsOf, Codec.Load, Codec.Live, Gather, EachShowsWhole, ShowsWhole;
    ghost var c, e0, initial, h0 :=
      store.codec, store.keyring.entries, store.codec.Load(store.keyring.entries), |store.keyring.history|;
    ghost var active := initial;
    returned, marks := [], [h0];
    NothingPerformed(c, store.keyring.history, initial, operations);
    while |returned| < |operations|
      invariant |returned| <= |operations| && |marks| == |returned| + 1
      invariant marks[0] == h0 && marks[|returned|] == |store.keyring.history|
      invariant active == LastActivated(c, initial, operations, returned)
      invariant EachShowsWhole(c, store.keyring.history, marks, initial, operations, returned)
      invariant c.Load(store.keyring.entries) in {active, Invalid, NotAuthenticated}
      invariant forall j | |returned| <= j < |operations| && operations[j].SaveOperation? ::
                  Fresh(c, store.keyring.entries, operations[j].generation)
      invariant store.keyring.faults >= old(store.keyring.faults)
      invariant store.keyring.faults == old(store.keyring.faults) && Clean(c, e0) ==> Clean(c, store.keyring.entries)
    {
      var n := |returned|;
      ghost var h := store.keyring.history;
      var ok;
      ok, active := Perform(store, operations[n], active);
      OneMoreShowsWhole(c, h, store.keyring.history, marks, initial, operations, returned, ok);
      assert (returned + [ok])[..n] == returned;
      returned, marks := returned + [ok], marks + [|store.keyring.history|];
    }
  }

  lemma NothingPerformed(c: Codec, history: seq<Entries>, initial: Outcome, operations: seq<Operation>)
    ensures EachShowsWhole(c, history, [|history|], initial, operations, [])
  {
  }

  lemma CleanWhenEmpty(c: Codec)
    ensures Clean(c, map[])
  {
  }

  /** Every recorded point from `from` on loads as before or as signed out. */
  ghost predicate OldOrOut(c: Codec, history: seq<Entries>, from: nat, before: Outcome)
  {
    forall k | from <= k < |history| :: c.Load(history[k]) in {before, NotAuthenticated}
  }

  /** Every recorded point from `from` on loads as before, as invalid, or as signed out. */
  ghost predicate Degrades(c: Codec, history: seq<Entries>, from: nat, before: Outcome)
  {
    forall k | from <= k < |history| :: c.Load(history[k]) in {before, Invalid, NotAuthenticated}
  }

  lemma MissingChunk(c: Codec, e: Entries, m: Manifest, index: nat)
    requires c.Valid() && c.Live(e) == Some(m) && index < m.count
    requires ChunkAccount(m.generation, index) !in e
    ensures c.Load(e) == Invalid
  {
    GatherMissing(e, m.generation, 0, m.count, index);
  }

  lemma RecordedNothing(c: Codec, e: Entries, history: seq<Entries>)
    ensures LastRecorded(e, |history|, e, history)
    ensures Degrades(c, history, |history|, c.Load(e)) && OldOrOut(c, history, |history|, c.Load(e))
  {
  }

  /** The last call of a removal, on the active entry, after the recorded contents `h1`. */
  lemma ActiveRemoved(c: Codec, e0: Entries, from: nat, e1: Entries, h1: seq<Entries>, f: Entries)
    requires LastRecorded(e0, from, e1, h1) && Degrades(c, h1, from, c.Load(e0))
    requires f == e1 || f == e1 - {ACTIVE_ACCOUNT}
    requires c.Load(e1) in {c.Load(e0), Invalid}
    ensures LastRecorded(e0, from, f, h1 + [f]) && Degrades(c, h1 + [f], from, c.Load(e0))
    ensures OldOrOut(c, h1, from, c.Load(e0)) && e1 == e0 ==> OldOrOut(c, h1 + [f], from, c.Load(e0))
    ensures c.Load(e1) == Invalid && c.Load(e0) != Invalid ==> !OldOrOut(c, h1 + [f], from, c.Load(e0))
    ensures ACTIVE_ACCOUNT in f ==> f == e1
  {
    hide Gather, Codec.ParseManifest;
    assert ACTIVE_ACCOUNT !in f ==> c.Load(f) == NotAuthenticated;
    var history := h1 + [f];
    if |h1| > from { assert history[|h1| - 1] == e1; }
    assert history[|h1|] == f;
  }

  lemma ChunksGone(c: Codec, e: Entries, f: Entries, m: Manifest)
    requires c.Valid() && c.Live(e) == Some(m) && c.Load(e) != Invalid && f == e - AccountsOf(m)
    ensures f != e && c.Load(f) == Invalid
  {
    hide Codec.Load, Codec.ParseManifest;
    ActiveIsNoChunk(m.generation);
    var first := ChunkAccount(m.generation, 0);
    assert first in AccountsOf(m) && IsChunkOf(first, m.generation);
    if first !in e { MissingChunk(c, e, m, 0); }
    assert ACTIVE_ACCOUNT in f && f[ACTIVE_ACCOUNT] == e[ACTIVE_ACCOUNT];
    MissingChunk(c, f, m, 0);
  }

  lemma {:induction false} GatherMissing(e: Entries, g: string, from: nat, end: nat, index: nat)
    requires from <= index < end && ChunkAccount(g, index) !in e
    ensures Gather(e, g, from, end).None?
    decreases end - from
  {
    if from < index {
      GatherMissing(e, g, from + 1, end, index);
    }
  }

  lemma ChunkStillThere(m: Manifest, index: nat, e0: Entries, e: Entries)
    requires ValidGeneration(m.generation) && index < m.count
    requires e == e0 - AccountsOf(Manifest(m.generation, index))
    ensures ChunkAccount(m.generation, index) in e <==> ChunkAccount(m.generation, index) in e0
    ensures AccountsOf(m) <= e0.Keys ==> ChunkAccount(m.generation, index) in e
  {
    forall i: nat | i < index ensures ChunkAccount(m.generation, i) != ChunkAccount(m.generation, index) {
      ChunkAccountInjective(m.generation, i, m.generation, index);
    }
  }

  /** Recorded contents that differ from `e` only in an unreferenced generation all load like `e`. */
  lemma Unactivated(
    c: Codec, e: Entries, last: Entries, history: seq<Entries>, from: nat, end: nat, g: string)
    requires ValidGeneration(g) && from <= end <= |history|
    requires DifferOnlyIn(e, last, g)
    requires forall k | from <= k < end :: DifferOnlyIn(e, history[k], g)
    ensures SameAt(e, last, ACTIVE_ACCOUNT)
    ensures Fresh(c, e, g) ==> c.Load(last) == c.Load(e) && c.Live(last) == c.Live(e)
    ensures Fresh(c, e, g) ==> Shows(c, history, from, end, c.Load(e))
  {
    ActiveIsNoChunk(g);
    if Fresh(c, e, g) {
      OtherGenerationInvisible(c, e, last, g);
      forall k | from <= k < end ensures c.Load(history[k]) == c.Load(e) {
        OtherGenerationInvisible(c, e, history[k], g);
      }
    }
  }

  /** Writing the manifest after all chunks activates the text. */
  lemma Activated(c: Codec, e: Entries, f: Entries, g: string, text: string)
    requires c.Valid() && ValidGeneration(g) && 1 <= |Chunks(text)| <= MAX_CHUNKS
    requires f == WithChunks(e, g, Chunks(text), |Chunks(text)|)
                  [ACTIVE_ACCOUNT := ManifestText(Manifest(g, |Chunks(text)|))]
    ensures c.Live(f) == Some(Manifest(g, |Chunks(text)|))
    ensures c.Load(f) == c.Decoded(text)
    ensures f.Keys == e.Keys + AccountsOf(Manifest(g, |Chunks(text)|)) + {ACTIVE_ACCOUNT}
  {
    hide Codec.Load, Codec.Live, Codec.Valid, Chunks, WithChunks, ManifestText;
    var chunks := Chunks(text);
    WithChunksContents(e, g, chunks, |chunks|);
    forall i: nat ensures ACTIVE_ACCOUNT != ChunkAccount(g, i) { ChunkAccountInjective(g, i, g, i); }
    ActivatedOutcome(c, f, g, text);
  }

  lemma DifferThrough(e: Entries, m: Entries, f: Entries, history: seq<Entries>, from: nat, mid: nat, g: string)
    requires from <= mid <= |history|
    requires DifferOnlyIn(e, m, g) && DifferOnlyIn(m, f, g)
    requires forall k | from <= k < mid :: DifferOnlyIn(e, history[k], g)
    requires forall k | mid <= k < |history| :: DifferOnlyIn(m, history[k], g)
    ensures DifferOnlyIn(e, f, g)
    ensures forall k | from <= k < |history| :: DifferOnlyIn(e, history[k], g)
  {
  }

  lemma DiffersNowhere(e: Entries, g: string)
    ensures DifferOnlyIn(e, e, g)
  {
  }

  lemma ActiveIsNoChunk(g: string)
    requires ValidGeneration(g)
    ensures !IsChunkOf(ACTIVE_ACCOUNT, g)
  {
  }

  lemma NotSwitched(
    c: Codec, h: seq<Entries>, from: nat, before: Outcome, after: Outcome)
    requires from <= |h| && Shows(c, h, from, |h|, before)
    ensures SwitchesAt(c, h, from, |h|, before, after)
  {
  }

  lemma Switched(
    c: Codec, h: seq<Entries>, longer: seq<Entries>, from: nat,
    before: Outcome, after: Outcome)
    requires h <= longer && from < |h|
    requires Shows(c, h, from, |h| - 1, before) && c.Load(h[|h| - 1]) == after
    requires Shows(c, longer, |h|, |longer|, after)
    ensures SwitchesAt(c, longer, from, |h| - 1, before, after)
  {
  }

  lemma NothingRecorded(c: Codec, e: Entries, h: seq<Entries>)
    ensures LastRecorded(e, |h|, e, h)
    ensures forall o: Outcome :: Shows(c, h, |h|, |h|, o)
  {
  }

  lemma LastShown(c: Codec, e0: Entries, h0: nat, e1: Entries, h1: seq<Entries>)
    requires LastRecorded(e0, h0, e1, h1) && h0 < |h1|
    ensures c.Load(h1[|h1| - 1]) == c.Load(e1)
  {
  }

  lemma RecordedThrough(e0: Entries, h0: nat, e1: Entries, h1: seq<Entries>, e2: Entries, h2: seq<Entries>)
    requires LastRecorded(e0, h0, e1, h1) && LastRecorded(e1, |h1|, e2, h2) && h1 <= h2
    ensures LastRecorded(e0, h0, e2, h2)
  {
  }

  lemma LiveIsParsed(c: Codec, e: Entries)
    ensures c.Live(e) == if ACTIVE_ACCOUNT in e then c.ParseManifest(e[ACTIVE_ACCOUNT]) else None
  {
  }

  /** Replacing one complete generation by another leaves exactly the new one. */
  lemma CleanSuccession(c: Codec, e0: Entries, e1: Entries, e2: Entries, live: Manifest)
    requires Clean(c, e0) && c.Live(e0).Some? && c.Live(e0).value.generation != live.generation
    requires ValidGeneration(live.generation)
    requires e1.Keys == e0.Keys + AccountsOf(live) + {ACTIVE_ACCOUNT}
    requires e2.Keys == e1.Keys - AccountsOf(c.Live(e0).value) && c.Live(e2) == Some(live)
    ensures Clean(c, e2)
  {
    DisjointGenerations(c.Live(e0).value, live);
  }

  lemma CleanStart(c: Codec, e0: Entries, e1: Entries, live: Manifest)
    requires Clean(c, e0) && c.Live(e0).None?
    requires e1.Keys == e0.Keys + AccountsOf(live) + {ACTIVE_ACCOUNT} && c.Live(e1) == Some(live)
    ensures Clean(c, e1)
  {
  }

  lemma DisjointGenerations(m: Manifest, n: Manifest)
    requires ValidGeneration(m.generation) && ValidGeneration(n.generation)
    requires m.generation != n.generation
    ensures AccountsOf(m) !! AccountsOf(n)
    ensures ACTIVE_ACCOUNT !in AccountsOf(m)
  {
    ActiveIsNoChunk(m.generation);
    forall i: nat, j: nat ensures ChunkAccount(m.generation, i) != ChunkAccount(n.generation, j) {
      ChunkAccountInjective(m.generation, i, n.generation, j);
    }
  }
}

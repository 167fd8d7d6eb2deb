/** `backend/core/license.py`: how a licence status is computed from the key file and the trial
    flags, the payload its MAC covers, and the 60-second cache over it.  Cryptography, the date
    library and the image's `plus.enc` are the parameter `Env`. */
module License {
  import opened Text

  const PLUS_TOKEN := "P3PLUS_VALID_TOKEN"
  const TRIAL_DURATION_DAYS := 30
  const TTL_SECONDS := 60.0

  datatype Reason = NoReason | DecryptionFailed | Expired | Missing | Tampered | Trial | TrialExpired

  datatype Status = Status(edition: string, valid: bool, contactName: Option<string>, contactEmail: Option<string>,
                           expiry: Option<string>, reason: Reason, trialUsed: bool, trialActive: bool)

  /** The contents of `plus.lic`; `Unreadable` is anything the parser or the field reads refuse. */
  datatype KeyFile =
    | Unreadable
    | Record(licenseId: string, edition: Option<string>, expiry: Option<string>, key: string, mac: Option<string>,
             contactName: Option<string>, contactEmail: Option<string>)

  /** What every process shares: the key file, the two trial flags, and the calendar. */
  datatype Shared = Shared(keyFile: Option<KeyFile>, trialUsed: bool, trialStartedAt: Option<string>, today: int)

  /** Opaque operations: ISO dates to and from day numbers, unwrapping the key field with the
      secret derived from the licence id, decrypting the image's `plus.enc` (`None` when the file
      is absent or the key is wrong), and the keyed MAC. */
  datatype Env = Env(parseDate: string -> Option<int>, isoFormat: int -> string,
                     unwrapKey: (string, string) -> Option<string>, openToken: string -> Option<string>,
                     macOf: (string, string) -> string)

  /** What the date library promises: a printed date reads back, and the empty string is no date. */
  ghost predicate DatesRoundTrip(env: Env)
  {
    env.parseDate("") == None && forall d: int :: env.parseDate(env.isoFormat(d)) == Some(d)
  }

  function Plain(edition: string, valid: bool, name: Option<string>, email: Option<string>,
                 expiry: Option<string>, reason: Reason): Status
  {
    Status(edition, valid, name, email, expiry, reason, false, false)
  }

  function OrEmpty(s: Option<string>): string { if s.Some? then s.value else "" }

  predicate Truthy(s: Option<string>) { OrEmpty(s) != "" }

  /** `_trial_status`, reached only without a key file. */
  function TrialStatus(env: Env, sh: Shared): Status
  {
    var never := Plain("core", false, None, None, None, Missing);
    if !sh.trialUsed || !Truthy(sh.trialStartedAt) then never
    else match env.parseDate(sh.trialStartedAt.value)
      case None => never
      case Some(start) =>
        var end := start + TRIAL_DURATION_DAYS;
        var expiry := Some(env.isoFormat(end));
        if sh.today <= end then Status("plus_trial", true, None, None, expiry, Trial, true, true)
        else Status("core", false, None, None, expiry, TrialExpired, true, false)
  }

  function NormalizeEdition(edition: string): string { if edition == "basis" then "core" else edition }

  /** `_mac_payload`, before its (injective) UTF-8 encoding. */
  function MacPayload(id: string, edition: string, expiry: Option<string>, name: Option<string>, email: Option<string>): string
  {
    Join([id, edition, OrEmpty(expiry), OrEmpty(name), OrEmpty(email)], '|')
  }

  function Edition(r: KeyFile): string
    requires r.Record?
  {
    if r.edition.Some? then r.edition.value else "plus_v1"
  }

  function Payload(r: KeyFile): string
    requires r.Record?
  {
    MacPayload(r.licenseId, Edition(r), r.expiry, r.contactName, r.contactEmail)
  }

  /** The key-file branch of `_load_status`. */
  function KeyStatus(env: Env, r: KeyFile, today: int): Status
  {
    if r.Unreadable? then Plain("core", false, None, None, None, DecryptionFailed)
    else
      var edition := Edition(r);
      var expiryDay := if r.expiry.Some? then env.parseDate(r.expiry.value) else None;
      if r.expiry.Some? && expiryDay.None? then
        Plain("core", false, r.contactName, r.contactEmail, r.expiry, DecryptionFailed)
      else if expiryDay.Some? && expiryDay.value < today then
        Plain(edition, false, r.contactName, r.contactEmail, r.expiry, Expired)
      else match env.unwrapKey(r.licenseId, r.key)
        case None => Plain(edition, false, r.contactName, r.contactEmail, r.expiry, DecryptionFailed)
        case Some(masterKey) =>
          if env.openToken(masterKey) != Some(PLUS_TOKEN) then
            Plain(edition, false, r.contactName, r.contactEmail, r.expiry, DecryptionFailed)
          else if !Truthy(r.mac) || env.macOf(masterKey, Payload(r)) != r.mac.value then
            Plain(edition, false, r.contactName, r.contactEmail, r.expiry, Tampered)
          else Plain(NormalizeEdition(edition), true, r.contactName, r.contactEmail, r.expiry, NoReason)
  }

  /** `_load_status`. */
  function LoadStatus(env: Env, sh: Shared): Status
  {
    if sh.keyFile.Some? then KeyStatus(env, sh.keyFile.value, sh.today) else TrialStatus(env, sh)
  }

  /** The token of the image opens under the file's key and the MAC covers the file's fields. */
  predicate Authentic(env: Env, r: KeyFile)
    requires r.Record?
  {
    && env.unwrapKey(r.licenseId, r.key).Some?
    && var masterKey := env.unwrapKey(r.licenseId, r.key).value;
       && env.openToken(masterKey) == Some("P3PLUS_VALID_TOKEN")
       && r.mac.Some? && r.mac.value != "" && env.macOf(masterKey, Payload(r)) == r.mac.value
  }

  /** A key file is valid exactly when it is authentic and has no expiry or a readable one not yet
      past; so validity, once lost by date, never returns, and tampering shows on every day. */
  lemma KeyValidIff(env: Env, r: KeyFile, today: int)
    ensures KeyStatus(env, r, today).valid <==>
            r.Record? && Authentic(env, r)
            && (r.expiry.Some? ==> env.parseDate(r.expiry.value).Some? && today <= env.parseDate(r.expiry.value).value)
    ensures KeyStatus(env, r, today).valid ==> forall day :: day <= today ==> KeyStatus(env, r, day).valid
    ensures KeyStatus(env, r, today).reason == NoReason <==> KeyStatus(env, r, today).valid
  {
  }

  /** The expiry of a record is a date that can be read. */
  predicate DateReads(env: Env, r: KeyFile)
    requires r.Record?
  {
    r.expiry.Some? ==> env.parseDate(r.expiry.value).Some?
  }

  predicate PastDate(env: Env, r: KeyFile, today: int)
    requires r.Record? && DateReads(env, r)
  {
    r.expiry.Some? && env.parseDate(r.expiry.value).value < today
  }

  /** The key field unwraps and its key opens the image's token. */
  predicate Unlocks(env: Env, r: KeyFile)
    requires r.Record?
  {
    env.unwrapKey(r.licenseId, r.key).Some? && env.openToken(env.unwrapKey(r.licenseId, r.key).value) == Some("P3PLUS_VALID_TOKEN")
  }

  /** Why a key file is refused: a readable expiry in the past comes first, tampering is a bad MAC on
      a file that unlocks, and everything else failed to decrypt. */
  lemma RefusalReasonIff(env: Env, r: KeyFile, today: int)
    ensures var reason := KeyStatus(env, r, today).reason;
            && (reason == Expired <==> r.Record? && DateReads(env, r) && PastDate(env, r, today))
            && (reason == Tampered <==> r.Record? && DateReads(env, r) && !PastDate(env, r, today) && Unlocks(env, r) && !Authentic(env, r))
            && (reason == DecryptionFailed <==> r.Unreadable? || !DateReads(env, r) || (!PastDate(env, r, today) && !Unlocks(env, r)))
  {
  }

  /** What a status says of a record: contacts and expiry as written, no trial, and the edition as
      written, "plus_v1" when absent; "core" for an unreadable expiry, and for a valid "basis". */
  lemma KeyStatusFields(env: Env, r: KeyFile, today: int)
    requires r.Record?
    ensures var s := KeyStatus(env, r, today);
            && s.contactName == r.contactName && s.contactEmail == r.contactEmail && s.expiry == r.expiry
            && !s.trialUsed && !s.trialActive
            && (!DateReads(env, r) ==> s.edition == "core")
            && (DateReads(env, r) && r.edition == None ==> s.edition == "plus_v1")
            && (DateReads(env, r) && r.edition.Some? && !(s.valid && r.edition == Some("basis")) ==> r.edition == Some(s.edition))
            && (s.valid && r.edition == Some("basis") ==> s.edition == "core")
  {
    assert "plus_v1" != "basis" by { assert "plus_v1"[0] != "basis"[0]; }
  }

  /** The text the MAC covers: five fields in this order, absent ones empty, with bars between. */
  lemma PayloadSpells(r: KeyFile, edition: string, expiry: string, name: string, email: string)
    requires r.Record? && edition == Edition(r)
    requires r.expiry == Some(expiry) || (r.expiry == None && expiry == "")
    requires r.contactName == Some(name) || (r.contactName == None && name == "")
    requires r.contactEmail == Some(email) || (r.contactEmail == None && email == "")
    ensures Payload(r) == r.licenseId + ['|'] + edition + ['|'] + expiry + ['|'] + name + ['|'] + email
    ensures edition == if r.edition.Some? then r.edition.value else "plus_v1"
  {
    var fields := [r.licenseId, edition, expiry, name, email];
    JoinedFive(fields, '|');
  }

  lemma JoinedFive(f: seq<string>, sep: char)
    requires |f| == 5
    ensures Join(f, sep) == f[0] + [sep] + f[1] + [sep] + f[2] + [sep] + f[3] + [sep] + f[4]
  {
    assert f[1..][1..] == f[2..] && f[2..][1..] == f[3..] && f[3..][1..] == f[4..] == [f[4]];
    assert Join(f[4..], sep) == f[4];
    assert Join(f[3..], sep) == f[3] + [sep] + f[4];
    assert Join(f[2..], sep) == f[2] + [sep] + Join(f[3..], sep);
    assert Join(f[1..], sep) == f[1] + [sep] + Join(f[2..], sep);
  }

  // ── what the MAC binds ─────────────────────────────────────────────────────

  predicate NoBar(r: KeyFile)
    requires r.Record?
  {
    '|' !in r.licenseId && '|' !in Edition(r) && '|' !in OrEmpty(r.expiry)
    && '|' !in OrEmpty(r.contactName) && '|' !in OrEmpty(r.contactEmail)
  }

  /** Equal payloads force equal fields, contact fields and expiry up to None and empty. */
  lemma PayloadDeterminesFields(a: KeyFile, b: KeyFile)
    requires a.Record? && b.Record? && NoBar(a) && NoBar(b) && Payload(a) == Payload(b)
    ensures a.licenseId == b.licenseId && Edition(a) == Edition(b) && OrEmpty(a.expiry) == OrEmpty(b.expiry)
    ensures OrEmpty(a.contactName) == OrEmpty(b.contactName) && OrEmpty(a.contactEmail) == OrEmpty(b.contactEmail)
  {
    var fa := [a.licenseId, Edition(a), OrEmpty(a.expiry), OrEmpty(a.contactName), OrEmpty(a.contactEmail)];
    var fb := [b.licenseId, Edition(b), OrEmpty(b.expiry), OrEmpty(b.contactName), OrEmpty(b.contactEmail)];
    SplitJoin(fa, '|');
    SplitJoin(fb, '|');
    assert fa == fb;
    assert fa[0] == fb[0] && fa[1] == fb[1] && fa[2] == fb[2] && fa[3] == fb[3] && fa[4] == fb[4];
  }

  /** An accepted record has no empty expiry, because the date check comes first; so two accepted
      records with the same payload agree on the expiry itself, and on how long they stay valid. */
  lemma AcceptedPayloadFixesExpiry(env: Env, a: KeyFile, b: KeyFile, dayA: int, dayB: int)
    requires env.parseDate("") == None
    requires a.Record? && b.Record? && NoBar(a) && NoBar(b) && Payload(a) == Payload(b)
    requires KeyStatus(env, a, dayA).valid && KeyStatus(env, b, dayB).valid
    ensures a.expiry == b.expiry && a.licenseId == b.licenseId && KeyStatus(env, a, dayA).edition == KeyStatus(env, b, dayB).edition
  {
    PayloadDeterminesFields(a, b);
  }

  /** Without the separator condition the payload does not determine the fields. */
  lemma BarBreaksPayload()
    ensures var a := Record("x", Some("y|z"), Some("e"), "k", None, Some("n"), None);
            var b := Record("x|y", Some("z"), Some("e"), "k", None, Some("n"), None);
            Payload(a) == Payload(b) && a.licenseId != b.licenseId
  {
    var ra := ["e", "n", ""];
    assert Join(["x", "y|z"] + ra, '|') == Join(["x|y", "z"] + ra, '|') by {
      JoinConcat(["x", "y|z"], ra, '|');
      JoinConcat(["x|y", "z"], ra, '|');
      assert Join(["x", "y|z"], '|') == "x" + ['|'] + Join(["y|z"], '|') == "x|y|z";
      assert Join(["x|y", "z"], '|') == "x|y" + ['|'] + Join(["z"], '|') == "x|y|z";
    }
    assert ["x", "y|z"] + ra == ["x", "y|z", "e", "n", ""];
    assert ["x|y", "z"] + ra == ["x|y", "z", "e", "n", ""];
  }

  // ── the process-local cache ────────────────────────────────────────────────

  datatype Cache = Cache(status: Option<Status>, loadedAt: real)

  const EMPTY_CACHE := Cache(None, 0.0)

  predicate Fresh(c: Cache, now: real) { c.status.Some? && now - c.loadedAt < TTL_SECONDS }

  /** The cache after `get_license_status` at time `now`; its status is the answer. */
  function Refreshed(env: Env, sh: Shared, now: real, c: Cache): (r: Cache)
    ensures r.status.Some?
  {
    if Fresh(c, now) then c else Cache(Some(LoadStatus(env, sh)), now)
  }

  /** The module globals `_cache` and `_cache_loaded_at` of one process. */
  class LicenseCache {
    var cache: Option<Status>
    var loadedAt: real

    function View(): Cache
      reads this
    {
      Cache(cache, loadedAt)
    }

    constructor ()
      ensures View() == EMPTY_CACHE
    {
      cache, loadedAt := None, 0.0;
    }

    /** `get_license_status`. */
    method GetLicenseStatus(env: Env, sh: Shared, now: real) returns (s: Status)
      modifies this
      ensures View() == Refreshed(env, sh, now, old(View())) && Some(s) == cache
      ensures old(cache).Some? && now - old(loadedAt) < 60.0 ==> Some(s) == old(cache) && loadedAt == old(loadedAt)
      ensures !(old(cache).Some? && now - old(loadedAt) < 60.0) ==> s == LoadStatus(env, sh) && loadedAt == now
    {
      if cache.None? || now - loadedAt >= TTL_SECONDS {
        cache := Some(LoadStatus(env, sh));
        loadedAt := now;
      }
      s := cache.value;
    }

    /** `reset_license_cache`. */
    method Reset()
      modifies this
      ensures View() == EMPTY_CACHE && cache == None
    {
      cache, loadedAt := None, 0.0;
    }
  }
}

/** The rotating local session and its crash-safe file (backends/harmony_g2/session.py). */
module Session {
  import opened Wrappers
  import opened Values
  import opened Calendar
  import JsonText

  const MAX_TOKEN := 8192
  const MAX_SESSION_BYTES := 32768
  const MAX_EXPIRES_IN := 366 * 24 * 60 * 60

  /** `_token`: visible ASCII of bounded length. */
  predicate ValidToken(s: string) {
    1 <= |s| <= MAX_TOKEN && JsonText.Visible(s)
  }

  type Token = s: string | ValidToken(s) witness "a"

  datatype LocalSession = LocalSession(accessToken: Token, refreshToken: Token, expiresAt: Instant)

  // ---- renewal responses ----

  function Round(r: real): int
  {
    var below := r.Floor;
    var excess := r - below as real;
    if excess < 0.5 || (excess == 0.5 && below % 2 == 0) then below else below + 1
  }

  /** A session lifetime in microseconds: a positive bounded number, not a bool and not a NaN. */
  function Lifetime(v: Value): (micros: Option<int>)
    ensures micros.Some? ==> 0 <= micros.value <= MAX_EXPIRES_IN * MICROS_PER_SECOND
    ensures micros.Some? && v.Int? ==> micros.value >= MICROS_PER_SECOND
  {
    match v
    case Int(i) => if 0 < i <= MAX_EXPIRES_IN then Some(i * MICROS_PER_SECOND) else None
    case Float(f) =>
      if 0.0 < f <= MAX_EXPIRES_IN as real then
        RoundBounds(f * MICROS_PER_SECOND as real, MAX_EXPIRES_IN * MICROS_PER_SECOND);
        Some(Round(f * MICROS_PER_SECOND as real))
      else None
    case _ => None
  }

  lemma RoundBounds(r: real, top: nat)
    requires 0.0 <= r <= top as real
    ensures 0 <= Round(r) <= top
  {
  }

  predicate AllowedRefreshKey(k: Key) {
    k == Name("access_token") || k == Name("refresh_token") || k == Name("expires_in") || k == Name("token_type")
  }

  /** `parse_refreshed_session`; None stands for its ValidationError. */
  function ParseRefreshed(payload: Value, now: Instant): (r: Option<LocalSession>)
    requires payload.Obj?
    ensures r.Some? ==> now <= r.value.expiresAt <= now + MAX_EXPIRES_IN * MICROS_PER_SECOND
  {
    if exists k | k in payload.keys :: !AllowedRefreshKey(k) then None
    else if Get(payload, "token_type") !in [None, Some(Str("Bearer"))] then None
    else
      match (Get(payload, "access_token"), Get(payload, "refresh_token"), Get(payload, "expires_in"))
      case (Some(Str(access)), Some(Str(refresh)), Some(lifetime)) =>
        var micros := Lifetime(lifetime);
        if micros.None? || now + micros.value >= DAYS_IN_RANGE * MICROS_PER_DAY then None
        else if !ValidToken(access) || !ValidToken(refresh) then None
        else Some(LocalSession(access, refresh, now + micros.value))
      case _ => None
  }

  // ---- what a renewal response must be, in literals ----

  /** The number of microseconds that a lifetime stands for: whole seconds exactly, and a fraction to the nearest
      microsecond, halves to the even one; at most 366 days. */
  predicate LastsFor(v: Value, micros: int) {
    match v
    case Int(i) => 0 < i <= 31_622_400 && micros == i * 1_000_000
    case Float(f) =>
      && 0.0 < f <= 31_622_400.0
      && var exact := f * 1_000_000.0;
         micros as real - 0.5 <= exact <= micros as real + 0.5
         && (exact == micros as real - 0.5 || exact == micros as real + 0.5 ==> micros % 2 == 0)
    case _ => false
  }

  lemma LifetimeIsExact(v: Value, micros: int)
    ensures Lifetime(v) == Some(micros) <==> LastsFor(v, micros)
  {
    if v.Float? {
      NearestIsUnique(v.f * 1_000_000.0, micros);
    }
  }

  lemma NearestIsUnique(r: real, n: int)
    ensures Round(r) == n <==> && n as real - 0.5 <= r <= n as real + 0.5
                               && (r == n as real - 0.5 || r == n as real + 0.5 ==> n % 2 == 0)
  {
  }

  /** A token of 1 to 8192 visible ASCII characters. */
  predicate IsTokenText(t: string) {
    1 <= |t| <= 8192 && forall c | c in t :: '!' <= c <= '~'
  }

  /** The response grants a session with these tokens and this expiry: a lifetime from now on that ends before the year
      10000, "Bearer" if there is a token type, and nothing else. */
  ghost predicate GrantedBy(payload: Value, now: Instant, access: string, refresh: string, expiresAt: int)
    requires payload.Obj?
  {
    && (forall k | k in payload.keys ::
          k == Name("access_token") || k == Name("refresh_token") || k == Name("expires_in") || k == Name("token_type"))
    && IsTokenText(access) && Maps(payload, "access_token", Str(access))
    && IsTokenText(refresh) && Maps(payload, "refresh_token", Str(refresh))
    && (exists lifetime :: Maps(payload, "expires_in", lifetime) && LastsFor(lifetime, expiresAt - now))
    && expiresAt < 3_652_059 * 86_400_000_000
    && (forall kind | Maps(payload, "token_type", kind) :: kind == Str("Bearer"))
  }

  /** `parse_refreshed_session` accepts exactly the responses that grant a session, and returns that session. */
  lemma RenewalIsExact(payload: Value, now: Instant)
    requires payload.Obj?
    ensures match ParseRefreshed(payload, now)
            case Some(s) =>
              && GrantedBy(payload, now, s.accessToken, s.refreshToken, s.expiresAt)
              && forall access, refresh, expiresAt | GrantedBy(payload, now, access, refresh, expiresAt) ::
                   access == s.accessToken && refresh == s.refreshToken && expiresAt == s.expiresAt
            case None => forall access, refresh, expiresAt :: !GrantedBy(payload, now, access, refresh, expiresAt)
  {
    hide Maps, Lifetime, LastsFor, GrantedBy, ParseRefreshed;
    if ParseRefreshed(payload, now).Some? {
      AcceptedIsGranted(payload, now);
    }
    forall access, refresh, expiresAt | GrantedBy(payload, now, access, refresh, expiresAt)
      ensures ParseRefreshed(payload, now).Some?
      ensures var s := ParseRefreshed(payload, now).value;
              s.accessToken == access && s.refreshToken == refresh && s.expiresAt == expiresAt
    {
      GrantedIsAccepted(payload, now, access, refresh, expiresAt);
    }
  }

  lemma AcceptedIsGranted(payload: Value, now: Instant)
    requires payload.Obj? && ParseRefreshed(payload, now).Some?
    ensures var s := ParseRefreshed(payload, now).value;
            GrantedBy(payload, now, s.accessToken, s.refreshToken, s.expiresAt)
  {
    hide Get, Maps, Lifetime, LastsFor;
    var s := ParseRefreshed(payload, now).value;
    var lifetime := Get(payload, "expires_in").value;
    GetIsExact(payload, "access_token", Str(s.accessToken));
    GetIsExact(payload, "refresh_token", Str(s.refreshToken));
    GetIsExact(payload, "expires_in", lifetime);
    LifetimeIsExact(lifetime, s.expiresAt - now);
    forall kind | Maps(payload, "token_type", kind) ensures kind == Str("Bearer") {
      GetIsExact(payload, "token_type", kind);
    }
  }

  lemma GrantedIsAccepted(payload: Value, now: Instant, access: string, refresh: string, expiresAt: int)
    requires payload.Obj? && GrantedBy(payload, now, access, refresh, expiresAt)
    ensures ParseRefreshed(payload, now).Some?
    ensures var s := ParseRefreshed(payload, now).value;
            s.accessToken == access && s.refreshToken == refresh && s.expiresAt == expiresAt
  {
    hide Get, Maps, Lifetime, LastsFor;
    var lifetime :| Maps(payload, "expires_in", lifetime) && LastsFor(lifetime, expiresAt - now);
    GetIsExact(payload, "access_token", Str(access));
    GetIsExact(payload, "refresh_token", Str(refresh));
    GetIsExact(payload, "expires_in", lifetime);
    LifetimeIsExact(lifetime, expiresAt - now);
    if Get(payload, "token_type").Some? {
      GetIsExact(payload, "token_type", Get(payload, "token_type").value);
    }
  }

  // ---- the session document ----

  const ACCESS_TOKEN: string := "access_token"
  const EXPIRES_AT: string := "expires_at"
  const REFRESH_TOKEN: string := "refresh_token"

  lemma KeyNames()
    ensures |ACCESS_TOKEN| == 12 && |EXPIRES_AT| == 10 && |REFRESH_TOKEN| == 13
    ensures PlainText(ACCESS_TOKEN) && PlainText(EXPIRES_AT) && PlainText(REFRESH_TOKEN)
    ensures ACCESS_TOKEN != EXPIRES_AT && EXPIRES_AT != REFRESH_TOKEN && ACCESS_TOKEN != REFRESH_TOKEN
  {
  }

  /** Visible text that JSON writes without an escape. */
  predicate PlainText(s: string) {
    forall c | c in s :: JsonText.IsVisible(c) && !JsonText.NeedsEscape(c)
  }

  function Members(s: LocalSession): seq<JsonText.Member> {
    [JsonText.Member(ACCESS_TOKEN, s.accessToken),
     JsonText.Member(EXPIRES_AT, FormatExpiry(s.expiresAt)),
     JsonText.Member(REFRESH_TOKEN, s.refreshToken)]
  }

  /** The document that `save` writes. */
  function Encode(s: LocalSession): string {
    JsonText.Dump(Members(s))
  }

  predicate IsSessionKey(name: string) {
    name == ACCESS_TOKEN || name == EXPIRES_AT || name == REFRESH_TOKEN
  }

  /** How many levels of nesting the interpreter can follow: at least the one of a session document. */
  type Depth = n: nat | n > 0 witness 1

  /** `json.loads` followed by `_parse_stored_session`; None stands for an exception. */
  function Decode(text: string, limit: Depth): Option<LocalSession>
  {
    match JsonText.Load(text, limit)
    case Object(fields) =>
      if exists f | f in fields :: !IsSessionKey(f.name) then None
      else
        DecodeFields(JsonText.Lookup(fields, ACCESS_TOKEN), JsonText.Lookup(fields, REFRESH_TOKEN),
                     JsonText.Lookup(fields, EXPIRES_AT))
    case _ => None
  }

  /** `_parse_stored_session` on the three looked-up values. */
  function DecodeFields(access: Option<JsonText.Item>, refresh: Option<JsonText.Item>, expires: Option<JsonText.Item>)
    : Option<LocalSession>
  {
    match (access, refresh, expires)
    case (Some(TextItem(a)), Some(TextItem(r)), Some(TextItem(e))) =>
      var t := ParseExpiry(e);
      if !ValidToken(a) || !ValidToken(r) || t.None? then None else Some(LocalSession(a, r, t.value))
    case _ => None
  }

  lemma ExpiryTextIsPlain(t: Instant)
    ensures PlainText(FormatExpiry(t))
    ensures |FormatExpiry(t)| == if ToCivil(t).micro == 0 then 20 else 27
  {
    hide DateText, ClockText, Fraction, PlainText, ToCivil;
    var c := ToCivil(t);
    PiecesArePlain(c);
    PlainTexts(DateText(c), "T");
    PlainTexts(DateText(c) + "T", ClockText(c));
    PlainTexts(DateText(c) + "T" + ClockText(c), Fraction(c.micro));
    PlainTexts(DateText(c) + "T" + ClockText(c) + Fraction(c.micro), "Z");
  }

  lemma PiecesArePlain(c: Civil)
    ensures PlainText(DateText(c)) && PlainText(ClockText(c)) && PlainText("T") && PlainText("Z")
    ensures PlainText(Fraction(c.micro)) && |Fraction(c.micro)| == if c.micro == 0 then 0 else 7
  {
  }

  lemma PlainTexts(a: string, b: string)
    requires PlainText(a) && PlainText(b)
    ensures PlainText(a + b)
  {
  }

  lemma {:induction false} PlainSize(s: string)
    requires PlainText(s)
    ensures JsonText.Escapes(s) == 0
    ensures |JsonText.Quote(s)| == |s| + 2
  {
    JsonText.QuoteSize(s);
    if s != "" {
      PlainSize(s[1..]);
    }
  }

  lemma {:induction false} PlainEscape(s: string)
    requires PlainText(s)
    ensures JsonText.Escape(s) == s
  {
    if s != "" {
      PlainEscape(s[1..]);
      assert s == [s[0]] + s[1..];
    }
  }

  /** The stored document: one object, its members in order of their names, without any space. */
  lemma DocumentInLiterals(s: LocalSession)
    ensures Encode(s)
         == "{" + ("\"" + "access_token" + "\"" + ":" + JsonText.Quote(s.accessToken)
            + "," + ("\"" + "expires_at" + "\"" + ":" + ("\"" + FormatExpiry(s.expiresAt) + "\"")
            + "," + ("\"" + "refresh_token" + "\"" + ":" + JsonText.Quote(s.refreshToken)))) + "}"
  {
    KeyNames();
    PlainEscape(ACCESS_TOKEN);
    PlainEscape(EXPIRES_AT);
    PlainEscape(REFRESH_TOKEN);
    ExpiryTextIsPlain(s.expiresAt);
    PlainEscape(FormatExpiry(s.expiresAt));
    hide FormatExpiry, ToCivil, PlainText, JsonText.Escape;
    var m := Members(s);
    assert m[1..] == [m[1], m[2]] && m[1..][1..] == [m[2]];
    assert JsonText.DumpMembers(m[1..][1..]) == JsonText.DumpMember(m[2]);
    assert JsonText.DumpMembers(m[1..]) == JsonText.DumpMember(m[1]) + [','] + JsonText.DumpMember(m[2]);
  }

  /** Size of the stored document, computable from the session before it is saved. */
  function EncodedSize(s: LocalSession): nat {
    |s.accessToken| + JsonText.Escapes(s.accessToken)
    + |s.refreshToken| + JsonText.Escapes(s.refreshToken)
    + (if ToCivil(s.expiresAt).micro == 0 then 20 else 27) + 54
  }

  lemma EncodedSizeIsExact(s: LocalSession)
    ensures |Encode(s)| == EncodedSize(s)
  {
    hide JsonText.Quote, JsonText.Escapes, JsonText.Dump, JsonText.DumpMember, FormatExpiry, ToCivil, PlainText;
    var m := Members(s);
    KeyNames();
    ExpiryTextIsPlain(s.expiresAt);
    DumpThreeSize(m[0], m[1], m[2]);
    PlainlyNamedSize(m[0]);
    PlainlyNamedSize(m[1]);
    PlainlyNamedSize(m[2]);
    PlainSize(m[1].text);
  }

  lemma PlainlyNamedSize(m: JsonText.Member)
    requires PlainText(m.name)
    ensures |JsonText.DumpMember(m)| == |m.name| + |m.text| + JsonText.Escapes(m.text) + 5
  {
    PlainSize(m.name);
    JsonText.QuoteSize(m.text);
  }

  lemma DumpThreeSize(a: JsonText.Member, b: JsonText.Member, c: JsonText.Member)
    ensures |JsonText.Dump([a, b, c])|
            == 4 + |JsonText.DumpMember(a)| + |JsonText.DumpMember(b)| + |JsonText.DumpMember(c)|
  {
    assert [a, b, c][1..] == [b, c];
    assert [b, c][1..] == [c];
    assert |JsonText.DumpMembers([c])| == |JsonText.DumpMember(c)|;
    assert |JsonText.DumpMembers([b, c])| == |JsonText.DumpMember(b)| + 1 + |JsonText.DumpMembers([c])|;
  }

  lemma FieldsOfMembers(s: LocalSession)
    ensures var m := Members(s);
            var f := JsonText.FieldsOf(m);
            && (forall x | x in m :: JsonText.Visible(x.name) && JsonText.Visible(x.text))
            && (forall x | x in f :: IsSessionKey(x.name))
            && JsonText.Lookup(f, ACCESS_TOKEN) == Some(JsonText.TextItem(s.accessToken))
            && JsonText.Lookup(f, REFRESH_TOKEN) == Some(JsonText.TextItem(s.refreshToken))
            && JsonText.Lookup(f, EXPIRES_AT) == Some(JsonText.TextItem(FormatExpiry(s.expiresAt)))
  {
    hide JsonText.Lookup, FormatExpiry;
    KeyNames();
    ExpiryTextIsPlain(s.expiresAt);
    LookupThree(JsonText.FieldsOf(Members(s)), ACCESS_TOKEN, EXPIRES_AT, REFRESH_TOKEN);
  }

  /** Decoding a saved document gives the session back. */
  lemma SessionRoundTrip(s: LocalSession, limit: Depth)
    ensures Decode(Encode(s), limit) == Some(s)
  {
    hide Decode, ParseExpiry, FormatExpiry, JsonText.Load, JsonText.Dump, JsonText.Lookup, JsonText.FieldsOf;
    hide IsSessionKey;
    FieldsOfMembers(s);
    JsonText.LoadOfDump(Members(s), limit);
    DecodeFound(Encode(s), JsonText.FieldsOf(Members(s)), limit);
    ExpiryRoundTrip(FormatExpiry(s.expiresAt), s.expiresAt);
  }

  lemma DecodeFound(text: string, fields: seq<JsonText.Field>, limit: Depth)
    requires JsonText.Load(text, limit) == JsonText.Object(fields) && forall x | x in fields :: IsSessionKey(x.name)
    ensures Decode(text, limit)
         == DecodeFields(JsonText.Lookup(fields, ACCESS_TOKEN), JsonText.Lookup(fields, REFRESH_TOKEN),
                         JsonText.Lookup(fields, EXPIRES_AT))
  {
  }

  /** A stored text is read as a session exactly if it is an object of the three text fields, with valid tokens and the
      canonical text of the expiry. */
  lemma DecodeIsExact(text: string, limit: Depth, s: LocalSession)
    ensures Decode(text, limit) == Some(s) <==>
              && JsonText.Load(text, limit).Object?
              && var fields := JsonText.Load(text, limit).fields;
              && (forall f | f in fields ::
                    f.name == "access_token" || f.name == "expires_at" || f.name == "refresh_token")
              && JsonText.Lookup(fields, "access_token") == Some(JsonText.TextItem(s.accessToken))
              && JsonText.Lookup(fields, "refresh_token") == Some(JsonText.TextItem(s.refreshToken))
              && JsonText.Lookup(fields, "expires_at") == Some(JsonText.TextItem(FormatExpiry(s.expiresAt)))
  {
    hide JsonText.Load, JsonText.Lookup, ParseExpiry, FormatExpiry, ValidToken;
    forall t: string, e: Instant ensures ParseExpiry(t) == Some(e) <==> t == FormatExpiry(e) {
      ExpiryRoundTrip(t, e);
    }
  }

  lemma LookupThree(f: seq<JsonText.Field>, a: string, b: string, c: string)
    requires |f| == 3 && f[0].name == a && f[1].name == b && f[2].name == c
    requires a != b && b != c && a != c
    ensures JsonText.Lookup(f, a) == Some(f[0].value)
    ensures JsonText.Lookup(f, b) == Some(f[1].value)
    ensures JsonText.Lookup(f, c) == Some(f[2].value)
  {
    var t := f[1..];
    assert t[0] == f[1] && t[1..][0] == f[2];
    assert t[1..][1..] == [];
    forall x ensures JsonText.Lookup(t[1..], x) == if x == c then Some(f[2].value) else None {
    }
    forall x
      ensures JsonText.Lookup(t, x) == if x == c then Some(f[2].value) else if x == b then Some(f[1].value) else None
    {
    }
  }

  // ---- the session file ----

  /** Contents at the session path, and of the temporary files beside it, oldest first. */
  datatype Disk = Disk(file: Option<string>, temps: seq<string>)

  /** Which operating-system steps of one `save` succeed; `written` bytes reach the disk before a failed write. */
  datatype SavePlan = SavePlan(
    parentValid: bool, fileValid: bool, tempCreated: bool, modeSet: bool, wrote: bool, written: nat,
    stillValid: bool, replaced: bool, directorySynced: bool, tempRemoved: bool)

  predicate TooLarge(file: Option<string>) {
    file.Some? && |file.value| > MAX_SESSION_BYTES
  }

  /** `load`: the file must exist and be small enough. */
  function LoadFrom(disk: Disk, limit: Depth): Option<LocalSession> {
    if disk.file.None? || TooLarge(disk.file) then None else Decode(disk.file.value, limit)
  }

  /** The exception of a failing `load` is not a ValidationError: the document is too deep for the interpreter or holds
      an integer of too many digits. */
  predicate LoadCrashes(disk: Disk, limit: Depth) {
    disk.file.Some? && !TooLarge(disk.file) && JsonText.Load(disk.file.value, limit) == JsonText.Crashed
  }

  /** Every disk state that one `save` passes through, whether it replaced the file, and whether it returned. */
  datatype SaveRun = SaveRun(disks: seq<Disk>, committed: bool, ok: bool)

  function Final(disks: seq<Disk>): Disk
    requires disks != []
  {
    disks[|disks| - 1]
  }

  /** The end of a save that did not replace the file: its temporary file is removed, if that succeeds. */
  function Abandon(disks: seq<Disk>, plan: SavePlan): (run: SaveRun)
    requires disks != []
    ensures run.disks != []
  {
    SaveRun(if plan.tempRemoved then disks + [disks[0]] else disks, false, false)
  }

  function WrittenText(text: string, plan: SavePlan): string {
    if plan.wrote || plan.written >= |text| then text else text[..plan.written]
  }

  /** `save` of an encoded session, step by step. */
  function RunSave(disk: Disk, text: string, plan: SavePlan): (run: SaveRun)
    ensures run.disks != []
  {
    if !plan.parentValid || !plan.fileValid || TooLarge(disk.file) || !plan.tempCreated then
      SaveRun([disk], false, false)
    else
      var created := disk.(temps := disk.temps + [""]);
      if !plan.modeSet then Abandon([disk, created], plan)
      else
        var filled := disk.(temps := disk.temps + [WrittenText(text, plan)]);
        if !plan.wrote || !plan.stillValid || !plan.replaced then Abandon([disk, created, filled], plan)
        else SaveRun([disk, created, filled, disk.(file := Some(text))], true, plan.directorySynced)
  }

  /** A save replaces the file exactly if every step up to the replacement succeeds and the old file is not too large,
      and returns exactly if the directory is synced as well. */
  lemma SaveReturnsExactly(disk: Disk, text: string, plan: SavePlan)
    ensures RunSave(disk, text, plan).committed <==>
              && plan.parentValid && plan.fileValid && (disk.file.Some? ==> |disk.file.value| <= 32_768)
              && plan.tempCreated && plan.modeSet && plan.wrote && plan.stillValid && plan.replaced
    ensures RunSave(disk, text, plan).ok <==> RunSave(disk, text, plan).committed && plan.directorySynced
  {
  }

  /** However a save ends, at every point in it the session path holds the complete old document or the
      complete new one, it never goes back, temporary files left by earlier saves stay as they are, and its own
      outlives it only if the save failed and so did the removal. */
  lemma SaveIsAtomic(disk: Disk, text: string, plan: SavePlan)
    ensures var run := RunSave(disk, text, plan);
            && run.disks[0] == disk
            && (forall k | 0 <= k < |run.disks| :: run.disks[k].file == disk.file || run.disks[k].file == Some(text))
            && (forall j, k | 0 <= j < k < |run.disks| && run.disks[j].file != disk.file ::
                run.disks[k] == run.disks[j])
            && (!run.committed ==> forall k | 0 <= k < |run.disks| :: run.disks[k].file == disk.file)
            && (run.committed ==> Final(run.disks) == disk.(file := Some(text)))
            && (run.ok ==> run.committed)
            && (forall k | 0 <= k < |run.disks| ::
                disk.temps <= run.disks[k].temps && |run.disks[k].temps| <= |disk.temps| + 1)
            && (Final(run.disks).temps != disk.temps ==> !run.committed && !plan.tempRemoved)
  {
  }

  /** A committed save can be loaded back exactly when the document is within the size that `load`
      accepts. Beyond it the session is lost to `load` and every later save is refused untouched. */
  lemma LoadAfterSave(disk: Disk, s: LocalSession, plan: SavePlan, limit: Depth)
    requires RunSave(disk, Encode(s), plan).committed
    ensures var after := Final(RunSave(disk, Encode(s), plan).disks);
            && (EncodedSize(s) <= MAX_SESSION_BYTES ==> LoadFrom(after, limit) == Some(s))
            && (EncodedSize(s) > MAX_SESSION_BYTES ==>
                  && LoadFrom(after, limit) == None
                  && forall next, p :: RunSave(after, next, p) == SaveRun([after], false, false))
  {
    EncodedSizeIsExact(s);
    SessionRoundTrip(s, limit);
  }

  lemma {:induction false} EscapesOfQuotes(n: nat)
    ensures var s := seq(n, _ => '"'); JsonText.Escapes(s) == n
  {
    var s := seq(n, _ => '"');
    if n > 0 {
      EscapesOfQuotes(n - 1);
      assert s[1..] == seq(n - 1, _ => '"');
    }
  }

  /** The size limit can be exceeded: two valid tokens made only of quotation marks. */
  lemma OversizedSessionExists()
    ensures exists s: LocalSession :: EncodedSize(s) > MAX_SESSION_BYTES
  {
    var t: string := seq(MAX_TOKEN, _ => '"');
    EscapesOfQuotes(MAX_TOKEN);
    assert ValidToken(t);
    var s := LocalSession(t, t, 0);
    assert EncodedSize(s) > MAX_SESSION_BYTES;
  }
}

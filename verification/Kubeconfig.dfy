/** The access Secret of a Shoot: how long its kubeconfig lasts and how often it is renewed.
    Times are whole seconds of Unix time. */
module Kubeconfig {
  import opened Wrappers

  const KUBECONFIG_VALIDITY_SECONDS := 6000
  const RENEWAL_MARGIN_SECONDS := 300

  // ---------------------------------------------------------------------------
  // Decimal numbers: strconv.FormatInt and strconv.Atoi on 64-bit integers
  // ---------------------------------------------------------------------------

  predicate IsInt64(n: int) {
    -0x8000_0000_0000_0000 <= n < 0x8000_0000_0000_0000
  }

  function Digit(d: nat): char
    requires d < 10
  {
    ('0' as int + d) as char
  }

  function FormatNat(n: nat): (s: string)
    ensures s != "" && '0' <= s[0] <= '9'
  {
    if n < 10 then [Digit(n)] else FormatNat(n / 10) + [Digit(n % 10)]
  }

  function FormatInt(n: int): string {
    if n < 0 then "-" + FormatNat(-n) else FormatNat(n)
  }

  function ParseNat(s: string): Option<nat> {
    if s == "" then Some(0)
    else
      var last, rest := s[|s| - 1], ParseNat(s[..|s| - 1]);
      if rest.Some? && '0' <= last <= '9' then Some(10 * rest.value + (last as int - '0' as int)) else None
  }

  /** An optional sign, at least one digit, nothing else, and a value that fits. */
  function Atoi(s: string): Option<int> {
    var signed := s != "" && (s[0] == '-' || s[0] == '+');
    var digits := if signed then s[1..] else s;
    if digits == "" || ParseNat(digits).None? then None
    else
      var magnitude: int := ParseNat(digits).value;
      var n := if signed && s[0] == '-' then -magnitude else magnitude;
      if IsInt64(n) then Some(n) else None
  }

  lemma {:induction false} ParseFormatNat(n: nat)
    ensures ParseNat(FormatNat(n)) == Some(n)
  {
    var s := FormatNat(n);
    if n < 10 {
      assert s[..|s| - 1] == "";
    } else {
      assert s[..|s| - 1] == FormatNat(n / 10);
      ParseFormatNat(n / 10);
    }
  }

  /** What is stored always parses back to the number that was written. */
  lemma DecimalRoundTrip(n: int)
    requires IsInt64(n)
    ensures Atoi(FormatInt(n)) == Some(n)
  {
    ParseFormatNat(if n < 0 then -n else n);
    var s := FormatInt(n);
    assert n < 0 ==> s[1..] == FormatNat(-n);
  }

  /** Decimal notation read from the front, as people do. */
  ghost function DecimalValue(s: string): nat
    requires AllDigits(s)
  {
    if s == "" then 0 else (s[0] as int - '0' as int) * PowerOfTen(|s| - 1) + DecimalValue(s[1..])
  }

  ghost function PowerOfTen(n: nat): nat {
    if n == 0 then 1 else 10 * PowerOfTen(n - 1)
  }

  ghost predicate AllDigits(s: string) {
    forall i :: 0 <= i < |s| ==> '0' <= s[i] <= '9'
  }

  lemma {:induction false} LastDigit(s: string)
    requires AllDigits(s) && s != ""
    ensures AllDigits(s[..|s| - 1])
    ensures DecimalValue(s) == 10 * DecimalValue(s[..|s| - 1]) + (s[|s| - 1] as int - '0' as int)
  {
    if |s| == 1 {
      assert s[1..] == "" && s[..0] == "";
    } else {
      var n := |s| - 1;
      var d := s[0] as int - '0' as int;
      LastDigit(s[1..]);
      assert s[1..][..n - 1] == s[..n][1..];
      assert PowerOfTen(n) == 10 * PowerOfTen(n - 1);
      assert d * (10 * PowerOfTen(n - 1)) == 10 * (d * PowerOfTen(n - 1));
    }
  }

  lemma {:induction false} ParseIsDecimal(s: string)
    ensures ParseNat(s).Some? <==> AllDigits(s)
    ensures AllDigits(s) ==> ParseNat(s) == Some(DecimalValue(s))
  {
    if s != "" {
      ParseIsDecimal(s[..|s| - 1]);
      if AllDigits(s) {
        LastDigit(s);
      }
    }
  }

  ghost predicate Signed64(s: string, digits: string, n: int) {
    && digits != "" && AllDigits(digits) && -0x8000_0000_0000_0000 <= n <= 0x7fff_ffff_ffff_ffff
    && (s == digits || s == "+" + digits || s == "-" + digits)
    && n == (if s == "-" + digits then -1 else 1) * DecimalValue(digits)
  }

  /** A string is read as a number exactly if it is an optional sign and decimal digits in range. */
  lemma {:induction false} AtoiReadsDecimals(s: string, n: int)
    ensures Atoi(s) == Some(n) <==> exists digits :: Signed64(s, digits, n)
  {
    var signed := s != "" && (s[0] == '-' || s[0] == '+');
    var digits := if signed then s[1..] else s;
    ParseIsDecimal(digits);
    assert signed ==> s == [s[0]] + digits;
    if Atoi(s) == Some(n) {
      assert Signed64(s, digits, n);
    }
    if other :| Signed64(s, other, n) {
      assert other == digits by {
        assert '0' <= other[0] <= '9';
        assert s == "+" + other ==> s[1..] == other;
        assert s == "-" + other ==> s[1..] == other;
      }
    }
  }

  /** What is written is decimal, without leading zeros. */
  lemma {:induction false} FormatIsDecimal(n: nat)
    ensures AllDigits(FormatNat(n)) && DecimalValue(FormatNat(n)) == n
    ensures FormatInt(n) == FormatNat(n) && (n > 0 ==> FormatInt(0 - n) == "-" + FormatNat(n))
    ensures |FormatNat(n)| > 1 ==> FormatNat(n)[0] != '0'
  {
    ParseFormatNat(n);
    ParseIsDecimal(FormatNat(n));
    NoLeadingZero(n);
  }

  lemma {:induction false} NoLeadingZero(n: nat)
    ensures n > 0 ==> FormatNat(n)[0] != '0'
    ensures n < 10 ==> |FormatNat(n)| == 1
  {
    if n >= 10 {
      NoLeadingZero(n / 10);
    }
  }

  // ---------------------------------------------------------------------------
  // One access reconcile
  // ---------------------------------------------------------------------------

  /** The data of the Secret, if it exists. */
  type Secret = Option<map<string, string>>

  datatype Outcome = Kept | Renewed | Failed

  /** A reconcile reads the clock once to judge the old kubeconfig and once to date the new one. */
  datatype Attempt = Attempt(checkedAt: int, signedAt: int, createOk: bool, requestOk: bool, updateOk: bool, kubeconfig: string)

  function Validity(data: map<string, string>): Option<int> {
    if "validity" in data then Atoi(data["validity"]) else None
  }

  /** Present and past the margin. */
  predicate StillValid(data: map<string, string>, now: int) {
    Validity(data).Some? && now + RENEWAL_MARGIN_SECONDS < Validity(data).value
  }

  predicate Unreadable(data: map<string, string>) {
    "validity" in data && Atoi(data["validity"]).None?
  }

  function Access(secret: Secret, a: Attempt): (Secret, Outcome) {
    if secret.None? && !a.createOk then (secret, Failed)
    else
      var data := if secret.Some? then secret.value else map[];
      if Unreadable(data) then (Some(data), Failed)
      else if StillValid(data, a.checkedAt) then (Some(data), Kept)
      else if !a.requestOk || !a.updateOk then (Some(data), Failed)
      else (Some(map["value" := a.kubeconfig, "validity" := FormatInt(a.signedAt + KUBECONFIG_VALIDITY_SECONDS)]), Renewed)
  }

  /** What an access reconcile leaves in each case: it fails if the Secret can be neither read nor
      created, if the old validity is no number, or if a renewal is refused; it keeps a kubeconfig that
      lasts 300 seconds longer; otherwise it stores the one it was given, dated 6000 seconds ahead. */
  ghost predicate AccessDone(before: Secret, a: Attempt, after: Secret, outcome: Outcome) {
    var data := if before.Some? then before.value else map[];
    var dated := "validity" in data && Atoi(data["validity"]).Some?;
    var keeps := dated && Atoi(data["validity"]).value > a.checkedAt + 300;
    match outcome
    case Failed =>
      && after == (if before.None? && a.createOk then Some(map[]) else before)
      && ((before.None? && !a.createOk) || ("validity" in data && !dated) || (!keeps && !(a.requestOk && a.updateOk)))
    case Kept => keeps && after == before
    case Renewed =>
      && !keeps && ("validity" in data ==> dated) && a.requestOk && a.updateOk && (before.None? ==> a.createOk)
      && after.Some? && after.value.Keys == {"value", "validity"}
      && after.value["value"] == a.kubeconfig && after.value["validity"] == FormatInt(a.signedAt + 6000)
  }

  lemma {:induction false} AccessIsDone(secret: Secret, a: Attempt)
    ensures AccessDone(secret, a, Access(secret, a).0, Access(secret, a).1)
  {}

  class SecretStore {
    var secret: Secret

    constructor (secret: Secret)
      ensures this.secret == secret
    {
      this.secret := secret;
    }

    method IsKubeConfigValid(data: map<string, string>, now: int) returns (valid: bool, error: bool)
      ensures error <==> "validity" in data && Atoi(data["validity"]).None?
      ensures valid <==> "validity" in data && Atoi(data["validity"]).Some? && now + 300 < Atoi(data["validity"]).value
    {
      if "validity" !in data {
        return false, false;
      }
      var value := Atoi(data["validity"]);
      if value.None? {
        return false, true;
      }
      return now + RENEWAL_MARGIN_SECONDS < value.value, false;
    }

    method ReconcileShootAccess(a: Attempt) returns (outcome: Outcome)
      modifies this
      ensures (secret, outcome) == Access(old(secret), a)
      ensures AccessDone(old(secret), a, secret, outcome)
    {
      AccessIsDone(secret, a);
      if secret.None? {
        if !a.createOk {
          return Failed;
        }
        secret := Some(map[]);
      }
      var valid, error := IsKubeConfigValid(secret.value, a.checkedAt);
      if error {
        return Failed;
      }
      if valid {
        return Kept;
      }
      if !a.requestOk {
        return Failed;
      }
      var data := map["value" := a.kubeconfig, "validity" := FormatInt(a.signedAt + KUBECONFIG_VALIDITY_SECONDS)];
      if !a.updateOk {
        return Failed;
      }
      secret := Some(data);
      return Renewed;
    }
  }

  /** After a success the stored kubeconfig outlasts the margin; after a failure nothing readable is lost. */
  lemma SuccessIsValid(secret: Secret, a: Attempt)
    requires a.checkedAt <= a.signedAt && IsInt64(a.signedAt + KUBECONFIG_VALIDITY_SECONDS)
    ensures var (next, outcome) := Access(secret, a);
      && (outcome != Failed ==>
            next.Some? && Validity(next.value).Some? && Validity(next.value).value > a.checkedAt + 300)
      && (outcome == Renewed ==> Validity(next.value) == Some(a.signedAt + 6000))
      && (outcome != Renewed && secret.Some? ==> next == secret)
  {
    DecimalRoundTrip(a.signedAt + KUBECONFIG_VALIDITY_SECONDS);
  }

  // ---------------------------------------------------------------------------
  // Interleaved attempts
  // ---------------------------------------------------------------------------

  /** Both GSCP controllers run access reconciles, call by call. A flight is at its next step. */
  datatype Flight =
    | Missing
    | Fetched(version: nat, data: map<string, string>)
    | Due(version: nat)
    | Signed(version: nat, kubeconfig: string, signedAt: int)

  /** `renewals` lists the dates of the kubeconfigs that were stored. */
  datatype Config = Config(now: int, secret: Secret, version: nat, flights: map<nat, Flight>, renewals: seq<int>)

  datatype Event =
    | Tick(to: int)
    | Get(id: nat)
    | Create(id: nat)
    | Check(id: nat)
    | Sign(id: nat, kubeconfig: string)
    | Update(id: nat)
    | Stop(id: nat)

  function Encoded(kubeconfig: string, signedAt: int): map<string, string> {
    map["value" := kubeconfig, "validity" := FormatInt(signedAt + KUBECONFIG_VALIDITY_SECONDS)]
  }

  /** The clock never goes back, and all dates fit. */
  function Step(c: Config, e: Event): Config {
    match e
    case Tick(to) => if c.now <= to && IsInt64(to + KUBECONFIG_VALIDITY_SECONDS) then c.(now := to) else c
    case Get(id) =>
      c.(flights := c.flights[id := if c.secret.None? then Missing else Fetched(c.version, c.secret.value)])
    case _ => if e.id in c.flights then FlightStep(c, e, c.flights[e.id]) else c
  }

  /** Creating fails if the Secret is there, and an update if it is newer than the one fetched. */
  function FlightStep(c: Config, e: Event, f: Flight): Config
    requires !e.Tick? && !e.Get?
  {
    var landed := c.(flights := c.flights - {e.id});
    match e
    case Create(id) =>
      if !f.Missing? then c
      else if c.secret.Some? then landed
      else c.(secret := Some(map[]), version := c.version + 1, flights := c.flights[id := Fetched(c.version + 1, map[])])
    case Check(id) =>
      if !f.Fetched? then c
      else if Unreadable(f.data) || StillValid(f.data, c.now) then landed
      else c.(flights := c.flights[id := Due(f.version)])
    case Sign(id, kubeconfig) => if f.Due? then c.(flights := c.flights[id := Signed(f.version, kubeconfig, c.now)]) else c
    case Update(_) =>
      if !f.Signed? then c
      else if f.version != c.version || c.secret.None? then landed
      else landed.(
        secret := Some(Encoded(f.kubeconfig, f.signedAt)),
        version := c.version + 1,
        renewals := c.renewals + [f.signedAt])
    case _ => landed
  }

  function Run(c: Config, events: seq<Event>): Config
    decreases |events|
  {
    if events == [] then c else Run(Step(c, events[0]), events[1..])
  }

  /** Nobody is under way and nothing has been renewed yet. */
  ghost predicate Start(c: Config) {
    c.flights == map[] && c.renewals == [] && IsInt64(c.now + KUBECONFIG_VALIDITY_SECONDS)
  }

  /** A date may be stored over this Secret only if it lies past or within its margin. */
  predicate Allows(secret: Secret, date: int) {
    secret.Some? && !Unreadable(secret.value)
    && (Validity(secret.value).Some? ==> date >= Validity(secret.value).value - RENEWAL_MARGIN_SECONDS)
  }

  ghost predicate FlightOk(c: Config, f: Flight) {
    match f
    case Missing => true
    case Fetched(version, data) => version <= c.version && (version == c.version ==> c.secret == Some(data))
    case Due(version) => version <= c.version && (version == c.version ==> Allows(c.secret, c.now))
    case Signed(version, _, signedAt) =>
      && version <= c.version && signedAt <= c.now && IsInt64(signedAt + KUBECONFIG_VALIDITY_SECONDS)
      && (version == c.version ==> Allows(c.secret, signedAt))
  }

  /** Each renewal is at least 5700 seconds after the one before it. */
  ghost predicate Spaced(dates: seq<int>) {
    forall i :: 0 <= i < |dates| - 1 ==> dates[i + 1] - dates[i] >= 5700
  }

  ghost predicate Valid(c: Config) {
    && IsInt64(c.now + KUBECONFIG_VALIDITY_SECONDS)
    && (forall id :: id in c.flights ==> FlightOk(c, c.flights[id]))
    && Spaced(c.renewals)
    && (c.renewals != [] ==>
          var last := c.renewals[|c.renewals| - 1];
          last <= c.now && c.secret.Some? && Validity(c.secret.value) == Some(last + KUBECONFIG_VALIDITY_SECONDS))
  }

  lemma EncodedValidity(kubeconfig: string, signedAt: int)
    requires IsInt64(signedAt + KUBECONFIG_VALIDITY_SECONDS)
    ensures Validity(Encoded(kubeconfig, signedAt)) == Some(signedAt + KUBECONFIG_VALIDITY_SECONDS)
  {
    DecimalRoundTrip(signedAt + KUBECONFIG_VALIDITY_SECONDS);
  }

  lemma SpacedAppend(dates: seq<int>, date: int)
    requires Spaced(dates)
    requires dates != [] ==> date - dates[|dates| - 1] >= 5700
    ensures Spaced(dates + [date])
  {}

  /** Every other flight is now out of date. */
  lemma UpdateKeepsFlights(c: Config, next: Config, id: nat)
    requires Valid(c) && next.version == c.version + 1 && next.now == c.now && next.flights == c.flights - {id}
    ensures forall other :: other in next.flights ==> FlightOk(next, next.flights[other])
  {
    forall other | other in next.flights ensures FlightOk(next, next.flights[other]) {
      assert other in c.flights && FlightOk(c, c.flights[other]);
    }
  }

  lemma UpdateKeepsValid(c: Config, id: nat)
    requires Valid(c) && id in c.flights
    ensures Valid(FlightStep(c, Update(id), c.flights[id]))
  {
    var f, next := c.flights[id], FlightStep(c, Update(id), c.flights[id]);
    assert FlightOk(c, f);
    if f.Signed? && f.version == c.version && c.secret.Some? {
      EncodedValidity(f.kubeconfig, f.signedAt);
      SpacedAppend(c.renewals, f.signedAt);
      UpdateKeepsFlights(c, next, id);
    } else {
      assert next.flights.Keys <= c.flights.Keys;
    }
  }

  lemma StepKeepsValid(c: Config, e: Event)
    requires Valid(c)
    ensures Valid(Step(c, e))
    ensures c.now <= Step(c, e).now && c.renewals <= Step(c, e).renewals
  {
    if e.Update? && e.id in c.flights {
      UpdateKeepsValid(c, e.id);
    }
  }

  lemma {:induction false} RunKeepsValid(c: Config, events: seq<Event>)
    requires Valid(c)
    ensures Valid(Run(c, events)) && c.renewals <= Run(c, events).renewals
    decreases |events|
  {
    if events != [] {
      StepKeepsValid(c, events[0]);
      RunKeepsValid(Step(c, events[0]), events[1..]);
    }
  }

  /** Main result: however the attempts of any number of reconciles interleave, two successive
      renewals are at least 5700 seconds apart, and the last one is what the Secret says. */
  lemma {:induction false} RenewalsAreSpaced(c: Config, events: seq<Event>)
    requires Start(c)
    ensures var after := Run(c, events);
      && Spaced(after.renewals)
      && (after.renewals != [] ==>
            && after.secret.Some?
            && Validity(after.secret.value) == Some(after.renewals[|after.renewals| - 1] + 6000))
  {
    RunKeepsValid(c, events);
  }

  lemma {:induction false} SpacedSpan(dates: seq<int>, i: nat, j: nat)
    requires Spaced(dates) && i <= j < |dates|
    ensures dates[j] - dates[i] >= (j - i) * 5700
    decreases j - i
  {
    if i < j {
      SpacedSpan(dates, i, j - 1);
      assert dates[j - 1 + 1] - dates[j - 1] >= 5700;
    }
  }

  /** Any renewals of a run that fall into a window of `window` seconds, the i-th to the j-th say,
      number at most 1 + window / 5700. */
  lemma {:induction false} RenewalBound(c: Config, events: seq<Event>, i: nat, j: nat, window: nat)
    requires Start(c)
    requires i <= j < |Run(c, events).renewals| && Run(c, events).renewals[j] - Run(c, events).renewals[i] <= window
    ensures j - i + 1 <= 1 + window / 5700
  {
    RenewalsAreSpaced(c, events);
    SpacedSpan(Run(c, events).renewals, i, j);
  }

  // ---------------------------------------------------------------------------
  // What a success means
  // ---------------------------------------------------------------------------

  /** What the Secret says lasts at least as long as what the data says. */
  ghost predicate LastsAsLong(secret: Secret, data: map<string, string>) {
    Validity(data).Some? ==>
      secret.Some? && Validity(secret.value).Some? && Validity(secret.value).value >= Validity(data).value
  }

  ghost predicate FetchesAreBehind(c: Config) {
    forall id :: id in c.flights && c.flights[id].Fetched? ==> LastsAsLong(c.secret, c.flights[id].data)
  }

  /** The stored validity only grows. */
  lemma {:induction false} ValidityGrows(c: Config, e: Event)
    requires Valid(c)
    ensures c.secret.Some? ==> LastsAsLong(Step(c, e).secret, c.secret.value)
  {
    if e.Update? && e.id in c.flights && c.flights[e.id].Signed? {
      var f := c.flights[e.id];
      assert FlightOk(c, f);
      EncodedValidity(f.kubeconfig, f.signedAt);
    }
  }

  lemma {:induction false} FetchesStayBehind(c: Config, e: Event)
    requires Valid(c) && FetchesAreBehind(c)
    ensures FetchesAreBehind(Step(c, e))
  {
    var next := Step(c, e);
    ValidityGrows(c, e);
    forall id | id in next.flights && next.flights[id].Fetched? ensures LastsAsLong(next.secret, next.flights[id].data) {
      if !(e == Get(id) || e == Create(id)) {
        assert c.flights[id] == next.flights[id];
      }
    }
  }

  lemma {:induction false} RunStaysBehind(c: Config, events: seq<Event>)
    requires Valid(c) && FetchesAreBehind(c)
    ensures Valid(Run(c, events)) && FetchesAreBehind(Run(c, events))
    decreases |events|
  {
    if events != [] {
      StepKeepsValid(c, events[0]);
      FetchesStayBehind(c, events[0]);
      RunStaysBehind(Step(c, events[0]), events[1..]);
    }
  }

  /** A check that finds the kubeconfig good ends a reconcile with success ... */
  ghost predicate Keeps(c: Config, e: Event) {
    && e.Check? && e.id in c.flights && c.flights[e.id].Fetched?
    && !Unreadable(c.flights[e.id].data) && StillValid(c.flights[e.id].data, c.now)
  }

  /** ... and so does an update that is accepted. */
  ghost predicate Renews(c: Config, e: Event) {
    && e.Update? && e.id in c.flights && c.flights[e.id].Signed?
    && c.secret.Some? && c.flights[e.id].version == c.version
  }

  /** Main result: in any interleaving, a reconcile that succeeds leaves a stored validity of more than
      300 seconds past its check, or of exactly 6000 past its signature, and no step shrinks it. */
  lemma {:induction false} InterleavedSuccess(c: Config, events: seq<Event>, e: Event)
    requires Start(c)
    ensures var d := Run(c, events);
      var next := Step(d, e);
      && (Keeps(d, e) ==>
            next.secret.Some? && Validity(next.secret.value).Some? && Validity(next.secret.value).value > d.now + 300)
      && (Renews(d, e) ==> next.secret.Some? && Validity(next.secret.value) == Some(d.flights[e.id].signedAt + 6000))
      && (d.secret.Some? ==> LastsAsLong(next.secret, d.secret.value))
  {
    RunStaysBehind(c, events);
    var d := Run(c, events);
    ValidityGrows(d, e);
    if Renews(d, e) {
      var f := d.flights[e.id];
      assert FlightOk(d, f);
      EncodedValidity(f.kubeconfig, f.signedAt);
    }
  }

  // ---------------------------------------------------------------------------
  // The stored kubeconfig and its date belong together
  // ---------------------------------------------------------------------------

  /** The kubeconfigs signed in the course of a run, with the dates of their signatures. */
  ghost function Signatures(c: Config, events: seq<Event>): set<(string, int)>
    decreases |events|
  {
    if events == [] then {}
    else
      var e := events[0];
      (if e.Sign? && e.id in c.flights && c.flights[e.id].Due? then {(e.kubeconfig, c.now)} else {})
      + Signatures(Step(c, e), events[1..])
  }

  /** The Secret says nothing, or holds a kubeconfig and 6000 seconds past its date. */
  ghost predicate Holds(secret: Secret, signatures: set<(string, int)>) {
    secret.Some? &&
      (secret.value == map[]
       || exists s :: s in signatures && secret.value.Keys == {"value", "validity"}
            && secret.value["value"] == s.0 && secret.value["validity"] == FormatInt(s.1 + 6000))
  }

  ghost predicate FlightsAreSigned(c: Config, signatures: set<(string, int)>) {
    forall id :: id in c.flights && c.flights[id].Signed? ==> (c.flights[id].kubeconfig, c.flights[id].signedAt) in signatures
  }

  lemma EncodedHolds(kubeconfig: string, signedAt: int, signatures: set<(string, int)>)
    requires (kubeconfig, signedAt) in signatures
    ensures Holds(Some(Encoded(kubeconfig, signedAt)), signatures)
  {
    var s := (kubeconfig, signedAt);
    assert Encoded(kubeconfig, signedAt).Keys == {"value", "validity"};
    assert s in signatures;
  }

  lemma SecretStaysSigned(c: Config, e: Event, signatures: set<(string, int)>)
    requires FlightsAreSigned(c, signatures)
    ensures Step(c, e).secret == c.secret || Holds(Step(c, e).secret, signatures)
  {
    if e.Update? && e.id in c.flights && c.flights[e.id].Signed? {
      EncodedHolds(c.flights[e.id].kubeconfig, c.flights[e.id].signedAt, signatures);
    }
  }

  lemma FlightsStaySigned(c: Config, e: Event, signatures: set<(string, int)>)
    requires FlightsAreSigned(c, signatures)
    requires e.Sign? && e.id in c.flights && c.flights[e.id].Due? ==> (e.kubeconfig, c.now) in signatures
    ensures FlightsAreSigned(Step(c, e), signatures)
  {}

  lemma {:induction false} SignedAlong(c: Config, events: seq<Event>, signatures: set<(string, int)>)
    requires FlightsAreSigned(c, signatures) && Signatures(c, events) <= signatures
    ensures Run(c, events).secret == c.secret || Holds(Run(c, events).secret, signatures)
    decreases |events|
  {
    if events != [] {
      SecretStaysSigned(c, events[0], signatures);
      FlightsStaySigned(c, events[0], signatures);
      SignedAlong(Step(c, events[0]), events[1..], signatures);
    }
  }

  /** Main result: in any interleaving the Secret is as it was, or empty, or holds a kubeconfig that was
      signed in the run together with the date of that same signature. */
  lemma {:induction false} KubeconfigAndDateBelongTogether(c: Config, events: seq<Event>)
    requires Start(c)
    ensures Run(c, events).secret == c.secret || Holds(Run(c, events).secret, Signatures(c, events))
  {
    SignedAlong(c, events, Signatures(c, events));
  }

  /** An accepted update stores the kubeconfig that its own request returned. */
  lemma UpdateStoresTheKubeconfig(c: Config, id: nat)
    requires Renews(c, Update(id))
    ensures var f, next := c.flights[id], Step(c, Update(id));
      && id !in next.flights && next.renewals == c.renewals + [f.signedAt]
      && next.secret.Some? && next.secret.value.Keys == {"value", "validity"}
      && next.secret.value["value"] == f.kubeconfig && next.secret.value["validity"] == FormatInt(f.signedAt + 6000)
  {
    assert Encoded(c.flights[id].kubeconfig, c.flights[id].signedAt).Keys == {"value", "validity"};
  }

  lemma UnreadableStep(c: Config, e: Event)
    requires Valid(c) && c.secret.Some? && Unreadable(c.secret.value)
    ensures Step(c, e).secret == c.secret && Step(c, e).renewals == c.renewals
  {}

  /** A validity entry that is not a number is never repaired: no reconcile gets past it. */
  lemma {:induction false} UnreadableIsStuck(c: Config, events: seq<Event>)
    requires Valid(c) && c.secret.Some? && Unreadable(c.secret.value)
    ensures Run(c, events).secret == c.secret && Run(c, events).renewals == c.renewals
    decreases |events|
  {
    if events != [] {
      UnreadableStep(c, events[0]);
      StepKeepsValid(c, events[0]);
      UnreadableIsStuck(Step(c, events[0]), events[1..]);
    }
  }

  /** The calls of one flight, with the clock read where an access reconcile reads it. */
  function CallsOf(id: nat, a: Attempt): seq<Event> {
    [Get(id), Create(id), Tick(a.checkedAt), Check(id), Tick(a.signedAt), Sign(id, a.kubeconfig), Update(id)]
  }

  lemma UndisturbedFlight(c: Config, id: nat, a: Attempt)
    requires id !in c.flights && c.now <= a.checkedAt <= a.signedAt
    requires IsInt64(a.signedAt + KUBECONFIG_VALIDITY_SECONDS) && IsInt64(a.checkedAt + KUBECONFIG_VALIDITY_SECONDS)
    requires a.createOk && a.requestOk && a.updateOk
    ensures var c1 := Step(Step(Step(c, Get(id)), Create(id)), Tick(a.checkedAt));
      var c2 := Step(Step(Step(c1, Check(id)), Tick(a.signedAt)), Sign(id, a.kubeconfig));
      && Step(c2, Update(id)).secret == Access(c.secret, a).0
      && id !in Step(c2, Update(id)).flights
      && Step(c2, Update(id)).renewals == c.renewals + (if Access(c.secret, a).1 == Renewed then [a.signedAt] else [])
  {}

  /** Without interference the calls of a flight are one access reconcile. */
  lemma {:induction false} FlightIsAccess(c: Config, id: nat, a: Attempt)
    requires id !in c.flights && c.now <= a.checkedAt <= a.signedAt
    requires IsInt64(a.signedAt + KUBECONFIG_VALIDITY_SECONDS) && IsInt64(a.checkedAt + KUBECONFIG_VALIDITY_SECONDS)
    requires a.createOk && a.requestOk && a.updateOk
    ensures var after := Run(c, CallsOf(id, a));
      && after.secret == Access(c.secret, a).0 && id !in after.flights
      && after.renewals == c.renewals + (if Access(c.secret, a).1 == Renewed then [a.signedAt] else [])
  {
    UndisturbedFlight(c, id, a);
    var events := CallsOf(id, a);
    RunSeven(c, events);
  }

  lemma RunSeven(c: Config, events: seq<Event>)
    requires |events| == 7
    ensures Run(c, events) == Step(Step(Step(Step(Step(Step(Step(c, events[0]), events[1]), events[2]), events[3]), events[4]), events[5]), events[6])
  {
    var c1 := Step(c, events[0]);
    var c2 := Step(c1, events[1]);
    var c3 := Step(c2, events[2]);
    var c4 := Step(c3, events[3]);
    var c5 := Step(c4, events[4]);
    var c6 := Step(c5, events[5]);
    assert Run(c6, events[6..]) == Step(c6, events[6]) by { assert events[6..][1..] == []; }
    assert Run(c5, events[5..]) == Run(c6, events[6..]) by { assert events[5..][1..] == events[6..]; }
    assert Run(c4, events[4..]) == Run(c5, events[5..]) by { assert events[4..][1..] == events[5..]; }
    assert Run(c3, events[3..]) == Run(c4, events[4..]) by { assert events[3..][1..] == events[4..]; }
    assert Run(c2, events[2..]) == Run(c3, events[3..]) by { assert events[2..][1..] == events[3..]; }
    assert Run(c1, events[1..]) == Run(c2, events[2..]) by { assert events[1..][1..] == events[2..]; }
  }

  /** Stopping, and an update that comes too late, end a flight and change nothing. */
  lemma FlightsEnd(c: Config, id: nat)
    requires id in c.flights
    ensures Step(c, Stop(id)) == c.(flights := c.flights - {id})
    ensures c.flights[id].Signed? && c.flights[id].version != c.version ==> Step(c, Update(id)) == c.(flights := c.flights - {id})
    ensures c.flights[id].Missing? && c.secret.Some? ==> Step(c, Create(id)) == c.(flights := c.flights - {id})
  {}
}

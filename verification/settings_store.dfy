/**
 The settings store: five settings loaded from, and written through to, a
 persistent key-value store, plus the port parser.
 */
module Settings {
  import opened Wrappers
  import AppRoles

  /** A value in the persistent store: only the two kinds the app writes. */
  datatype StoredValue = Text(text: string) | Flag(flag: bool)

  type Defaults = map<string, StoredValue>

  const RoleKey := "clicksync.role"
  const FollowerHostKey := "clicksync.followerHost"
  const PortKey := "clicksync.port"
  const DebugLoggingKey := "clicksync.debugLogging"
  const SelectedPeerNameKey := "clicksync.selectedPeerName"

  const DefaultPortString := "54545"

  lemma KeysDistinct()
    ensures |{RoleKey, FollowerHostKey, PortKey, DebugLoggingKey, SelectedPeerNameKey}| == 5
  {
  }

  datatype SettingsStore = SettingsStore(
    role: AppRoles.AppRole,
    followerHost: string,
    portString: string,
    debugLogging: bool,
    selectedPeerName: string)

  /** A store together with the persistent map it writes through to. */
  datatype Persisted = Persisted(store: SettingsStore, defaults: Defaults)

  /** The string stored under `key`, if the value there is a string. */
  function StringFor(d: Defaults, key: string): (r: Option<string>)
    ensures r.Some? <==> key in d && d[key].Text?
    ensures r.Some? ==> d[key] == Text(r.value)
  {
    if key in d && d[key].Text? then Some(d[key].text) else None
  }

  /** The flag stored under `key`; false when absent. */
  function BoolFor(d: Defaults, key: string): (r: bool)
    ensures r <==> key in d && d[key] == Flag(true)
  {
    key in d && d[key] == Flag(true)
  }

  /**
   `init`: every setting read from the store, with its fallback. Loading
   writes nothing back (property observers do not run during `init`).
   */
  function Load(d: Defaults): (s: SettingsStore)
    ensures StringFor(d, RoleKey).Some? && AppRoles.FromRawValue(StringFor(d, RoleKey).value).Some?
      ==> s.role == AppRoles.FromRawValue(StringFor(d, RoleKey).value).value
    ensures (StringFor(d, RoleKey).None? || AppRoles.FromRawValue(StringFor(d, RoleKey).value).None?)
      ==> s.role == AppRoles.Controller
    ensures s.followerHost == StringFor(d, FollowerHostKey).GetOr("")
    ensures s.portString == StringFor(d, PortKey).GetOr(DefaultPortString)
    ensures s.debugLogging <==> BoolFor(d, DebugLoggingKey)
    ensures s.selectedPeerName == StringFor(d, SelectedPeerNameKey).GetOr("")
  {
    SettingsStore(
      AppRoles.FromRawValue(StringFor(d, RoleKey).GetOr("")).GetOr(AppRoles.Controller),
      StringFor(d, FollowerHostKey).GetOr(""),
      StringFor(d, PortKey).GetOr(DefaultPortString),
      BoolFor(d, DebugLoggingKey),
      StringFor(d, SelectedPeerNameKey).GetOr(""))
  }

  /** An empty store loads the documented defaults. */
  lemma FreshDefaults()
    ensures Load(map[]) == SettingsStore(AppRoles.Controller, "", "54545", false, "")
  {
  }

  // Each setter assigns one field and writes that field, and only it, through.

  function SetRole(p: Persisted, role: AppRoles.AppRole): (r: Persisted)
    ensures r.store == p.store.(role := role)
    ensures r.defaults == p.defaults[RoleKey := Text(AppRoles.RawValue(role))]
  {
    Persisted(p.store.(role := role), p.defaults[RoleKey := Text(AppRoles.RawValue(role))])
  }

  function SetFollowerHost(p: Persisted, host: string): (r: Persisted)
    ensures r.store == p.store.(followerHost := host)
    ensures r.defaults == p.defaults[FollowerHostKey := Text(host)]
  {
    Persisted(p.store.(followerHost := host), p.defaults[FollowerHostKey := Text(host)])
  }

  function SetPortString(p: Persisted, port: string): (r: Persisted)
    ensures r.store == p.store.(portString := port)
    ensures r.defaults == p.defaults[PortKey := Text(port)]
  {
    Persisted(p.store.(portString := port), p.defaults[PortKey := Text(port)])
  }

  function SetDebugLogging(p: Persisted, on: bool): (r: Persisted)
    ensures r.store == p.store.(debugLogging := on)
    ensures r.defaults == p.defaults[DebugLoggingKey := Flag(on)]
  {
    Persisted(p.store.(debugLogging := on), p.defaults[DebugLoggingKey := Flag(on)])
  }

  function SetSelectedPeerName(p: Persisted, name: string): (r: Persisted)
    ensures r.store == p.store.(selectedPeerName := name)
    ensures r.defaults == p.defaults[SelectedPeerNameKey := Text(name)]
  {
    Persisted(p.store.(selectedPeerName := name), p.defaults[SelectedPeerNameKey := Text(name)])
  }

  /** The in-memory settings agree with what a fresh load would read. */
  predicate InSync(p: Persisted) {
    Load(p.defaults) == p.store
  }

  /** Loading a store and keeping it is in sync. */
  lemma LoadInSync(d: Defaults)
    ensures InSync(Persisted(Load(d), d))
  {
  }

  /** Writing one key leaves what every other key reads unchanged. */
  lemma OtherKeysUnchanged(d: Defaults, key: string, v: StoredValue, other: string)
    requires other != key
    ensures StringFor(d[key := v], other) == StringFor(d, other)
    ensures BoolFor(d[key := v], other) == BoolFor(d, other)
  {
  }

  /**
   Write-through: every setter keeps memory and store in sync, so a relaunch
   reads back exactly the value set, and nothing else changes.
   */
  lemma SetRoleInSync(p: Persisted, role: AppRoles.AppRole)
    requires InSync(p)
    ensures InSync(SetRole(p, role))
  {
    var d := p.defaults[RoleKey := Text(AppRoles.RawValue(role))];
    AppRoles.RawValueRoundTrip(role);
    assert StringFor(d, RoleKey) == Some(AppRoles.RawValue(role));
    OtherKeysUnchanged(p.defaults, RoleKey, Text(AppRoles.RawValue(role)), FollowerHostKey);
    OtherKeysUnchanged(p.defaults, RoleKey, Text(AppRoles.RawValue(role)), PortKey);
    OtherKeysUnchanged(p.defaults, RoleKey, Text(AppRoles.RawValue(role)), DebugLoggingKey);
    OtherKeysUnchanged(p.defaults, RoleKey, Text(AppRoles.RawValue(role)), SelectedPeerNameKey);
  }

  lemma SetFollowerHostInSync(p: Persisted, host: string)
    requires InSync(p)
    ensures InSync(SetFollowerHost(p, host))
  {
    OtherKeysUnchanged(p.defaults, FollowerHostKey, Text(host), RoleKey);
    OtherKeysUnchanged(p.defaults, FollowerHostKey, Text(host), PortKey);
    OtherKeysUnchanged(p.defaults, FollowerHostKey, Text(host), DebugLoggingKey);
    OtherKeysUnchanged(p.defaults, FollowerHostKey, Text(host), SelectedPeerNameKey);
  }

  lemma SetPortStringInSync(p: Persisted, port: string)
    requires InSync(p)
    ensures InSync(SetPortString(p, port))
  {
    OtherKeysUnchanged(p.defaults, PortKey, Text(port), RoleKey);
    OtherKeysUnchanged(p.defaults, PortKey, Text(port), FollowerHostKey);
    OtherKeysUnchanged(p.defaults, PortKey, Text(port), DebugLoggingKey);
    OtherKeysUnchanged(p.defaults, PortKey, Text(port), SelectedPeerNameKey);
  }

  lemma SetDebugLoggingInSync(p: Persisted, on: bool)
    requires InSync(p)
    ensures InSync(SetDebugLogging(p, on))
  {
    OtherKeysUnchanged(p.defaults, DebugLoggingKey, Flag(on), RoleKey);
    OtherKeysUnchanged(p.defaults, DebugLoggingKey, Flag(on), FollowerHostKey);
    OtherKeysUnchanged(p.defaults, DebugLoggingKey, Flag(on), PortKey);
    OtherKeysUnchanged(p.defaults, DebugLoggingKey, Flag(on), SelectedPeerNameKey);
  }

  lemma SetSelectedPeerNameInSync(p: Persisted, name: string)
    requires InSync(p)
    ensures InSync(SetSelectedPeerName(p, name))
  {
    OtherKeysUnchanged(p.defaults, SelectedPeerNameKey, Text(name), RoleKey);
    OtherKeysUnchanged(p.defaults, SelectedPeerNameKey, Text(name), FollowerHostKey);
    OtherKeysUnchanged(p.defaults, SelectedPeerNameKey, Text(name), PortKey);
    OtherKeysUnchanged(p.defaults, SelectedPeerNameKey, Text(name), DebugLoggingKey);
  }

  // ----- port parsing -----

  predicate IsDigit(c: char) {
    '0' <= c <= '9'
  }

  predicate AllDigits(s: string) {
    forall i :: 0 <= i < |s| ==> IsDigit(s[i])
  }

  function DigitValue(c: char): (v: nat)
    requires IsDigit(c)
    ensures v < 10
  {
    c as int - '0' as int
  }

  function DigitChar(v: nat): (c: char)
    requires v < 10
    ensures IsDigit(c) && DigitValue(c) == v
  {
    ('0' as int + v) as char
  }

  /** The value of a run of decimal digits, most significant first. */
  function DecimalValue(s: string): nat
    requires AllDigits(s)
    decreases |s|
  {
    if s == [] then 0 else DecimalValue(s[..|s| - 1]) * 10 + DigitValue(s[|s| - 1])
  }

  /**
   `portValue`, as `UInt16(String)` parses: an optional `+` or `-`, then at
   least one ASCII digit, and the value must fit in 16 bits (so after `-`
   only zero does).
   */
  function PortValue(s: string): (r: Option<nat>)
    ensures r.Some? ==> r.value < 0x1_0000
  {
    var neg := |s| > 0 && s[0] == '-';
    var digits := if |s| > 0 && (s[0] == '+' || s[0] == '-') then s[1..] else s;
    if digits == [] || !AllDigits(digits) then None
    else if neg then (if DecimalValue(digits) == 0 then Some(0) else None)
    else if DecimalValue(digits) < 0x1_0000 then Some(DecimalValue(digits))
    else None
  }

  /** Decimal rendering without leading zeros, as string interpolation writes a number. */
  function Decimal(n: nat): (s: string)
    ensures s != [] && AllDigits(s)
    ensures DecimalValue(s) == n
    ensures n > 0 ==> s[0] != '0'
    decreases n
  {
    if n < 10 then [DigitChar(n)]
    else
      var s := Decimal(n / 10) + [DigitChar(n % 10)];
      assert s[..|s| - 1] == Decimal(n / 10);
      s
  }

  /** Every 16-bit port survives rendering and parsing. */
  lemma PortRoundTrip(n: nat)
    requires n < 0x1_0000
    ensures PortValue(Decimal(n)) == Some(n)
  {
  }

  /** Rendering is injective on what it parses back to. */
  lemma ParseDecimalRoundTrip(s: string)
    requires PortValue(s).Some? && s[0] != '+' && s[0] != '-' && (|s| == 1 || s[0] != '0')
    ensures Decimal(PortValue(s).value) == s
  {
    DecimalCanonical(s);
  }

  lemma {:induction false} DecimalCanonical(s: string)
    requires s != [] && AllDigits(s) && (|s| == 1 || s[0] != '0')
    ensures Decimal(DecimalValue(s)) == s
    decreases |s|
  {
    if |s| == 1 {
    } else {
      var init := s[..|s| - 1];
      DecimalCanonical(init);
      LeadingNonZero(init);
      assert DecimalValue(s) / 10 == DecimalValue(init);
      assert DecimalValue(s) % 10 == DigitValue(s[|s| - 1]);
      assert DigitChar(DigitValue(s[|s| - 1])) == s[|s| - 1];
      assert s == init + [s[|s| - 1]];
    }
  }

  /** A digit run with a non-zero lead digit has a positive value. */
  lemma {:induction false} LeadingNonZero(s: string)
    requires s != [] && AllDigits(s) && s[0] != '0'
    ensures DecimalValue(s) >= 1
    decreases |s|
  {
    if |s| > 1 {
      LeadingNonZero(s[..|s| - 1]);
    }
  }

  /** The value of a five-digit run, digit by digit. */
  lemma FiveDigits(s: string)
    requires |s| == 5 && AllDigits(s)
    ensures DecimalValue(s) == DigitValue(s[0]) * 10000 + DigitValue(s[1]) * 1000 + DigitValue(s[2]) * 100 + DigitValue(s[3]) * 10 + DigitValue(s[4])
  {
    assert s[..1][..0] == [];
    assert s[..2][..1] == s[..1];
    assert s[..3][..2] == s[..2];
    assert s[..4][..3] == s[..3];
    assert s[..5] == s;
    assert s[..5][..4] == s[..4];
    assert DecimalValue(s[..1]) == DigitValue(s[0]);
    assert DecimalValue(s[..2]) == DigitValue(s[0]) * 10 + DigitValue(s[1]);
    assert DecimalValue(s[..3]) == DecimalValue(s[..2]) * 10 + DigitValue(s[2]);
    assert DecimalValue(s[..4]) == DecimalValue(s[..3]) * 10 + DigitValue(s[3]);
  }

  /** The default port parses. */
  lemma DefaultPortParses()
    ensures PortValue(DefaultPortString) == Some(54545)
  {
    FiveDigits(DefaultPortString);
  }

  /** Strings the parser refuses: empty, a bare sign, a non-digit. */
  lemma PortRejectsMalformed()
    ensures PortValue("").None?
    ensures PortValue("+").None?
    ensures PortValue("54a45").None?
  {
    assert !IsDigit("54a45"[2]);
  }

  /** Every negative value is refused: after `-` only zero parses. */
  lemma NegativeRefused(digits: string)
    requires digits != [] && AllDigits(digits) && DecimalValue(digits) > 0
    ensures PortValue("-" + digits).None?
  {
    assert ("-" + digits)[1..] == digits;
  }

  /** Every value that does not fit in 16 bits is refused, with or without a `+`. */
  lemma WideRefused(digits: string)
    requires digits != [] && AllDigits(digits) && DecimalValue(digits) >= 0x1_0000
    ensures PortValue(digits).None?
    ensures PortValue("+" + digits).None?
  {
    assert ("+" + digits)[1..] == digits;
  }

  /** 65536, the first value past 16 bits, and -1 are refused. */
  lemma PortRejectsOutOfRange()
    ensures PortValue("65536").None?
    ensures PortValue("-1").None?
  {
    FiveDigits("65536");
    assert "-1"[1..] == "1";
  }

  /** A sign is accepted: "-0" is zero and "+65535" the largest port. */
  lemma PortAcceptsSigns()
    ensures PortValue("-0") == Some(0)
    ensures PortValue("+65535") == Some(65535)
  {
    assert "-0"[1..] == "0";
    assert "0"[..0] == [];
    assert "+65535"[1..] == "65535";
    FiveDigits("65535");
  }
}

/**
 * The Amplitude source connector: the HTTP Basic credential built from the
 * API key and secret key (section 2 of RFC 7617), the start-date clamp, and
 * the stream list built from a configuration that is updated in place.
 */
module Amplitude {
  import opened Wrappers
  import Base64

  type byte = Base64.byte

  const Colon: byte := 58

  datatype Error =
    | UnicodeEncodeError(position: nat)   // a code point above U+00FF at this index
    | UnicodeDecodeError(position: nat)   // a byte above 0x7F at this index
    | KeyError(key: string)               // config["..."] on a missing key
    | NotAString(key: string)             // a configuration value without `encode`
    | ParseError                          // pendulum.parse rejected the start date

  // ---------------------------------------------------------------------------
  // The credential
  // ---------------------------------------------------------------------------

  /**
   * `str.encode("latin1")`: every code point up to U+00FF becomes the byte of
   * the same value; the first code point above it fails the whole encoding.
   */
  function Latin1Encode(s: string): (r: Result<seq<byte>, nat>)
    ensures r.Success? <==> forall i :: 0 <= i < |s| ==> s[i] as int < 256
    ensures r.Success? ==> |r.value| == |s| && forall i :: 0 <= i < |s| ==> r.value[i] as int == s[i] as int
    ensures r.Failure? ==>
      && r.error < |s| && s[r.error] as int >= 256
      && forall i :: 0 <= i < r.error ==> s[i] as int < 256
  {
    if s == [] then Success([])
    else if s[0] as int >= 256 then Failure(0)
    else match Latin1Encode(s[1..])
      case Success(t) => Success([s[0] as int as byte] + t)
      case Failure(k) => Failure(k + 1)
  }

  /** The whitespace `bytes.strip()` removes: space, \t, \n, \v, \f, \r. */
  predicate IsAsciiSpace(b: byte) {
    b == 32 || (9 <= b <= 13)
  }

  /** Leading whitespace dropped: a suffix of `s` that does not start with whitespace. */
  function StripStart(s: seq<byte>): (r: seq<byte>)
    ensures |r| <= |s| && r == s[|s| - |r|..]
    ensures forall i :: 0 <= i < |s| - |r| ==> IsAsciiSpace(s[i])
    ensures r != [] ==> !IsAsciiSpace(r[0])
    decreases |s|
  {
    if |s| > 0 && IsAsciiSpace(s[0]) then StripStart(s[1..]) else s
  }

  /** Trailing whitespace dropped: a prefix of `s` that does not end with whitespace. */
  function StripEnd(s: seq<byte>): (r: seq<byte>)
    ensures |r| <= |s| && r == s[..|r|]
    ensures forall i :: |r| <= i < |s| ==> IsAsciiSpace(s[i])
    ensures r != [] ==> !IsAsciiSpace(r[|r| - 1])
    decreases |s|
  {
    if |s| > 0 && IsAsciiSpace(s[|s| - 1]) then StripEnd(s[..|s| - 1]) else s
  }

  /** `bytes.strip()`: leading and trailing ASCII whitespace removed. */
  function Strip(s: seq<byte>): seq<byte> {
    StripEnd(StripStart(s))
  }

  /**
   * `strip` keeps a slice of its input that neither starts nor ends with
   * whitespace, and leaves nothing exactly when the input is all whitespace.
   */
  lemma StripTrims(s: seq<byte>)
    ensures |Strip(s)| <= |s|
    ensures Strip(s) != [] ==> !IsAsciiSpace(Strip(s)[0]) && !IsAsciiSpace(Strip(s)[|Strip(s)| - 1])
    ensures Strip(s) == [] <==> forall i :: 0 <= i < |s| ==> IsAsciiSpace(s[i])
  {
    var a := StripStart(s);
    var r := StripEnd(a);
    if r != [] {
      assert r[0] == a[0];
    } else {
      assert a == [];
    }
  }

  /** `bytes.decode("ascii")`: fails at the first byte above 0x7F. */
  function AsciiDecode(b: seq<byte>): (r: Result<string, Error>)
    ensures r.Success? <==> forall i :: 0 <= i < |b| ==> b[i] < 128
    ensures r.Success? ==> |r.value| == |b| && forall i :: 0 <= i < |b| ==> r.value[i] as int == b[i] as int
    ensures r.Failure? ==>
      && r.error.UnicodeDecodeError?
      && r.error.position < |b| && b[r.error.position] >= 128
      && forall i :: 0 <= i < r.error.position ==> b[i] < 128
  {
    if b == [] then Success([])
    else if b[0] >= 128 then Failure(UnicodeDecodeError(0))
    else match AsciiDecode(b[1..])
      case Success(t) => Success([b[0] as int as char] + t)
      case Failure(e) => Failure(UnicodeDecodeError(e.position + 1))
  }

  /** The bytes of an ASCII string, the reverse of `AsciiDecode`. */
  function AsciiBytes(s: string): (r: Option<seq<byte>>)
    ensures r.Some? <==> forall i :: 0 <= i < |s| ==> s[i] as int < 128
    ensures r.Some? ==> |r.value| == |s| && forall i :: 0 <= i < |s| ==> r.value[i] as int == s[i] as int
  {
    if s == [] then Some([])
    else if s[0] as int >= 128 then None
    else match AsciiBytes(s[1..])
      case Some(t) => Some([s[0] as int as byte] + t)
      case None => None
  }

  /** The user-id and password joined by a colon: the input of the base64 step. */
  function UserPass(user: seq<byte>, password: seq<byte>): seq<byte> {
    user + [Colon] + password
  }

  /**
   * `_convert_auth_to_token`: Latin-1 encode both parts, join them with ':',
   * base64-encode, strip, and decode as ASCII.
   */
  function ConvertAuthToToken(username: string, password: string): Result<string, Error> {
    match Latin1Encode(username)
    case Failure(k) => Failure(UnicodeEncodeError(k))
    case Success(u) =>
      match Latin1Encode(password)
      case Failure(k) => Failure(UnicodeEncodeError(k))
      case Success(p) => AsciiDecode(Strip(Base64.Encode(UserPass(u, p))))
  }

  lemma StripKeepsEncoding(e: seq<byte>)
    requires forall i :: 0 <= i < |e| ==> Base64.IsEncodedByte(e[i])
    ensures Strip(e) == e
  {
    assert forall i :: 0 <= i < |e| ==> !IsAsciiSpace(e[i]);
    var s := StripStart(e);
    assert s == e[|e| - |s|..] == e;
    assert StripEnd(s) == s[..|StripEnd(s)|] == s;
  }

  /** ASCII bytes decode to a string whose bytes are those bytes again. */
  lemma AsciiDecodeBytes(b: seq<byte>)
    requires forall i :: 0 <= i < |b| ==> b[i] < 128
    ensures AsciiDecode(b).Success? && AsciiBytes(AsciiDecode(b).value) == Some(b)
  {
    var t := AsciiDecode(b).value;
    assert AsciiBytes(t).value == b;
  }

  /** Once both parts are Latin-1, the token's bytes are the base64 encoding. */
  lemma TokenShape(username: string, password: string)
    requires Latin1Encode(username).Success? && Latin1Encode(password).Success?
    ensures var e := Base64.Encode(UserPass(Latin1Encode(username).value, Latin1Encode(password).value));
            && ConvertAuthToToken(username, password).Success?
            && AsciiBytes(ConvertAuthToToken(username, password).value) == Some(e)
  {
    var e := Base64.Encode(UserPass(Latin1Encode(username).value, Latin1Encode(password).value));
    StripKeepsEncoding(e);
    forall i | 0 <= i < |e| ensures e[i] < 128 {
      assert Base64.IsEncodedByte(e[i]);
    }
    AsciiDecodeBytes(e);
    assert ConvertAuthToToken(username, password) == AsciiDecode(e);
  }

  /**
   * The token is the Basic credential of section 2 of RFC 7617: decoding it
   * as base64 gives back the Latin-1 bytes of the user, a colon, and the
   * Latin-1 bytes of the password.
   */
  lemma TokenDecodesToUserPass(username: string, password: string)
    requires Latin1Encode(username).Success? && Latin1Encode(password).Success?
    ensures ConvertAuthToToken(username, password).Success?
    ensures var t := ConvertAuthToToken(username, password).value;
            && AsciiBytes(t).Some?
            && Base64.Decode(AsciiBytes(t).value)
               == Some(UserPass(Latin1Encode(username).value, Latin1Encode(password).value))
  {
    TokenShape(username, password);
    Base64.DecodeEncode(UserPass(Latin1Encode(username).value, Latin1Encode(password).value));
  }

  /** Four characters for every started group of three bytes of "user:password". */
  lemma TokenLength(username: string, password: string)
    requires Latin1Encode(username).Success? && Latin1Encode(password).Success?
    ensures ConvertAuthToToken(username, password).Success?
    ensures |ConvertAuthToToken(username, password).value| == Base64.EncodedLength(|username| + 1 + |password|)
  {
    TokenShape(username, password);
    var u, p := Latin1Encode(username).value, Latin1Encode(password).value;
    var t := ConvertAuthToToken(username, password).value;
    assert |u| == |username| && |p| == |password|;
    EncodedTokenLength(t, u, p);
  }

  lemma EncodedTokenLength(t: string, u: seq<byte>, p: seq<byte>)
    requires AsciiBytes(t) == Some(Base64.Encode(UserPass(u, p)))
    ensures |t| == Base64.EncodedLength(|u| + 1 + |p|)
  {
    var e := Base64.Encode(UserPass(u, p));
    assert |t| == |e|;
    EncodingLength(u, p);
  }

  lemma EncodingLength(u: seq<byte>, p: seq<byte>)
    ensures |Base64.Encode(UserPass(u, p))| == Base64.EncodedLength(|u| + 1 + |p|)
  {
    var s := UserPass(u, p);
    assert |s| == |u| + 1 + |p|;
    var e := Base64.Encode(s);
    assert |e| == Base64.EncodedLength(|s|);
  }

  /** The token is ASCII: every character is a base64 character or the pad. */
  lemma TokenIsAscii(username: string, password: string)
    requires Latin1Encode(username).Success? && Latin1Encode(password).Success?
    ensures ConvertAuthToToken(username, password).Success?
    ensures var t := ConvertAuthToToken(username, password).value;
            forall i :: 0 <= i < |t| ==> t[i] as int < 128
  {
    var e := Base64.Encode(UserPass(Latin1Encode(username).value, Latin1Encode(password).value));
    TokenShape(username, password);
    EncodedTokenIsAscii(ConvertAuthToToken(username, password).value, e);
  }

  lemma EncodedTokenIsAscii(t: string, e: seq<byte>)
    requires AsciiBytes(t) == Some(e)
    requires forall i :: 0 <= i < |e| ==> Base64.IsEncodedByte(e[i])
    ensures forall i :: 0 <= i < |t| ==> t[i] as int < 128
  {
    forall i | 0 <= i < |t| ensures t[i] as int < 128 {
      assert t[i] as int == e[i] as int;
    }
  }

  /** Building the token fails exactly when one of its parts is not Latin-1. */
  lemma TokenFailsOnlyOutsideLatin1(username: string, password: string)
    ensures ConvertAuthToToken(username, password).Failure?
            <==> (exists i :: 0 <= i < |username| && username[i] as int >= 256)
                 || (exists i :: 0 <= i < |password| && password[i] as int >= 256)
    ensures ConvertAuthToToken(username, password).Failure? ==>
            ConvertAuthToToken(username, password).error.UnicodeEncodeError?
  {
    if Latin1Encode(username).Success? && Latin1Encode(password).Success? {
      TokenShape(username, password);
    }
  }

  // ---------------------------------------------------------------------------
  // The start date
  // ---------------------------------------------------------------------------

  /** A point in time, in microseconds; pendulum's DateTime ordering. */
  type Instant = int

  const MicrosPerSecond := 1_000_000

  /**
   * What `_validate_start_date` returns: the parsed DateTime itself, or, for a
   * date in the future, the string `now.to_datetime_string()`, which names
   * `now` to the second. The string is represented by the instant it names.
   */
  datatype StartValue = Moment(at: Instant) | Rendered(at: Instant)

  /** A configuration value: a string, a DateTime object, or something else. */
  datatype ConfigValue = Str(s: string) | DateTime(t: Instant) | OtherValue

  /** The instant truncated to whole seconds, as `to_datetime_string` shows it. */
  function ToSecond(t: Instant): (r: Instant)
    ensures r <= t < r + MicrosPerSecond
    ensures r % MicrosPerSecond == 0
  {
    t - t % MicrosPerSecond
  }

  /**
   * `_validate_start_date`, with `pendulum.now()` as `now` and
   * `pendulum.parse` as `parse`. A missing value or one that is not a string
   * cannot be parsed.
   */
  function ValidateStartDate(raw: Option<ConfigValue>, now: Instant, parse: string -> Option<Instant>)
    : (r: Result<StartValue, Error>)
    ensures r.Success? <==> raw.Some? && raw.value.Str? && parse(raw.value.s).Some?
    ensures r.Success? ==> r.value.at <= now
    ensures r.Success? && parse(raw.value.s).value <= now ==> r.value == Moment(parse(raw.value.s).value)
    ensures r.Success? && parse(raw.value.s).value > now ==> r.value == Rendered(ToSecond(now))
  {
    match raw
    case Some(Str(s)) =>
      (match parse(s)
       case Some(d) => if d > now then Success(Rendered(ToSecond(now))) else Success(Moment(d))
       case None => Failure(ParseError))
    case _ => Failure(ParseError)
  }

  /** How `config["start_date"] = ...` stores the clamped value. */
  function Stored(v: StartValue, render: Instant -> string): ConfigValue {
    match v
    case Moment(t) => DateTime(t)
    case Rendered(t) => Str(render(t))
  }

  // ---------------------------------------------------------------------------
  // The stream list
  // ---------------------------------------------------------------------------

  /** `TokenAuthenticator(token=..., auth_method="Basic")`. */
  datatype Authenticator = TokenAuthenticator(token: string, authMethod: string)

  datatype AmplitudeStream =
    | Cohorts(auth: Authenticator)
    | Annotations(auth: Authenticator)
    | Events(auth: Authenticator, startDate: ConfigValue)
    | ActiveUsers(auth: Authenticator, startDate: ConfigValue)
    | AverageSessionLength(auth: Authenticator, startDate: ConfigValue)

  /** The list returned at the end of `streams`. */
  function StreamList(auth: Authenticator, startDate: ConfigValue): (r: seq<AmplitudeStream>)
    ensures |r| == 5
    ensures r[0].Cohorts? && r[1].Annotations? && r[2].Events? && r[3].ActiveUsers? && r[4].AverageSessionLength?
    ensures forall i :: 0 <= i < |r| ==> r[i].auth == auth
    ensures forall i :: 2 <= i < |r| ==> r[i].startDate == startDate
  {
    [Cohorts(auth), Annotations(auth), Events(auth, startDate),
     ActiveUsers(auth, startDate), AverageSessionLength(auth, startDate)]
  }

  /** `config.get(key)`. */
  function Get(entries: map<string, ConfigValue>, key: string): Option<ConfigValue>
  {
    if key in entries then Some(entries[key]) else None
  }

  /**
   * One credential part inside `_convert_auth_to_token`: a value without
   * `encode` fails first, then a code point outside Latin-1.
   */
  function EncodePart(key: string, v: ConfigValue): (r: Result<seq<byte>, Error>)
    ensures r.Success? <==> v.Str? && Latin1Encode(v.s).Success?
    ensures r.Success? ==> r.value == Latin1Encode(v.s).value
    ensures !v.Str? ==> r == Failure(NotAString(key))
    ensures v.Str? && r.Failure? ==> r == Failure(UnicodeEncodeError(Latin1Encode(v.s).error))
  {
    match v
    case Str(s) =>
      (match Latin1Encode(s)
       case Success(b) => Success(b)
       case Failure(k) => Failure(UnicodeEncodeError(k)))
    case _ => Failure(NotAString(key))
  }

  /**
   * The Basic authenticator of `streams`: both keys are looked up first
   * (a missing one is a KeyError), then the username is encoded, then the
   * password, then the token is built.
   */
  function AuthFrom(entries: map<string, ConfigValue>): (r: Result<Authenticator, Error>)
    ensures "api_key" !in entries ==> r == Failure(KeyError("api_key"))
    ensures "api_key" in entries && "secret_key" !in entries ==> r == Failure(KeyError("secret_key"))
    ensures "api_key" in entries && "secret_key" in entries && EncodePart("api_key", entries["api_key"]).Failure?
            ==> r == Failure(EncodePart("api_key", entries["api_key"]).error)
    ensures "api_key" in entries && "secret_key" in entries && EncodePart("api_key", entries["api_key"]).Success?
            && EncodePart("secret_key", entries["secret_key"]).Failure?
            ==> r == Failure(EncodePart("secret_key", entries["secret_key"]).error)
    ensures r.Success? <==> && "api_key" in entries && "secret_key" in entries
                            && entries["api_key"].Str? && entries["secret_key"].Str?
                            && ConvertAuthToToken(entries["api_key"].s, entries["secret_key"].s).Success?
    ensures r.Success? ==>
            r.value == TokenAuthenticator(ConvertAuthToToken(entries["api_key"].s, entries["secret_key"].s).value, "Basic")
  {
    match Get(entries, "api_key")
    case None => Failure(KeyError("api_key"))
    case Some(apiKey) =>
      match Get(entries, "secret_key")
      case None => Failure(KeyError("secret_key"))
      case Some(secretKey) =>
        match EncodePart("api_key", apiKey)
        case Failure(e) => Failure(e)
        case Success(_) =>
          match EncodePart("secret_key", secretKey)
          case Failure(e) => Failure(e)
          case Success(_) =>
            match ConvertAuthToToken(apiKey.s, secretKey.s)
            case Failure(e) => Failure(e)
            case Success(token) => Success(TokenAuthenticator(token, "Basic"))
  }

  /** The configuration dictionary that `streams` receives and updates. */
  class Config {
    var entries: map<string, ConfigValue>

    constructor (entries: map<string, ConfigValue>)
      ensures this.entries == entries
    {
      this.entries := entries;
    }
  }

  /**
   * `SourceAmplitude.streams`: overwrite the start date with its clamped value,
   * then build the five streams. When the clamp fails nothing is written; when
   * the token fails the start date has already been overwritten.
   */
  method Streams(config: Config, now: Instant, parse: string -> Option<Instant>, render: Instant -> string)
    returns (r: Result<seq<AmplitudeStream>, Error>)
    modifies config
    ensures var v := ValidateStartDate(Get(old(config.entries), "start_date"), now, parse);
            && (v.Failure? ==> config.entries == old(config.entries) && r == Failure(v.error))
            && (v.Success? ==> config.entries == old(config.entries)["start_date" := Stored(v.value, render)])
    ensures r.Success? <==> ValidateStartDate(Get(old(config.entries), "start_date"), now, parse).Success?
                            && AuthFrom(config.entries).Success?
    ensures var v := ValidateStartDate(Get(old(config.entries), "start_date"), now, parse);
            v.Success? && AuthFrom(config.entries).Failure? ==> r == Failure(AuthFrom(config.entries).error)
    ensures r.Success? ==> r.value == StreamList(AuthFrom(config.entries).value, config.entries["start_date"])
  {
    var v := ValidateStartDate(Get(config.entries, "start_date"), now, parse);
    if v.Failure? {
      return Failure(v.error);
    }
    config.entries := config.entries["start_date" := Stored(v.value, render)];
    var auth := AuthFrom(config.entries);
    if auth.Failure? {
      return Failure(auth.error);
    }
    r := Success(StreamList(auth.value, config.entries["start_date"]));
  }
}

/**
 * TURN REST credentials: the username type:id:expiry that the two issuing handlers print and the
 * TURN server parses, the acceptance window, and the choice of the secret.
 * HMAC-SHA256 and the long-term-credential key are arbitrary functions.
 */
module TurnAuth {
  import opened Wrappers
  import opened Text
  import Base64

  type Bytes = seq<Base64.Byte>

  /** hmac(secret, message) and authKey(username, realm, password). */
  datatype Crypto = Crypto(hmac: (string, string) -> Bytes, authKey: (string, string, string) -> Bytes)

  const WINDOW: int := 48 * 3600

  // ---------- issuing ----------

  function Username(peerType: string, peerId: string, expiry: int): string {
    peerType + [':'] + (peerId + [':'] + PrintInt(expiry))
  }

  /** Padded standard base64, as base64.StdEncoding prints it. */
  function Padded(text: string): string {
    if |text| % 4 == 2 then text + "==" else if |text| % 4 == 3 then text + "=" else text
  }

  function Password(crypto: Crypto, secret: string, username: string): string {
    Padded(Base64.Encode(Base64.Std, crypto.hmac(secret, username)))
  }

  datatype Credentials = Credentials(username: string, password: string, expiry: int)

  /** generateTURNCredentials at the clock second `now`; the sum is a 64-bit addition. */
  function Issue(crypto: Crypto, secret: string, peerType: string, peerId: string, ttl: int, now: int): Credentials {
    var expiry := Wrap64(now + ttl);
    var username := Username(peerType, peerId, expiry);
    Credentials(username, Password(crypto, secret, username), expiry)
  }

  datatype IssueError = MissingField | BadPeerType

  /** handleGenerateCredentials after its body is parsed; a zero ttl means the configured one. */
  function IssueOverRest(crypto: Crypto, secret: string, configuredTtl: int,
                         peerType: string, peerId: string, ttl: int, now: int): Result<Credentials, IssueError> {
    if peerType == "" || peerId == "" then Err(MissingField)
    else if peerType != "edge" && peerType != "client" then Err(BadPeerType)
    else Ok(Issue(crypto, secret, peerType, peerId, if ttl == 0 then configuredTtl else ttl, now))
  }

  /** Which requests the endpoint answers with credentials, and how it refuses the others. */
  lemma IssuesExactly(crypto: Crypto, secret: string, configuredTtl: int,
                      peerType: string, peerId: string, ttl: int, now: int)
    ensures var r := IssueOverRest(crypto, secret, configuredTtl, peerType, peerId, ttl, now);
      && (r.Ok? <==> peerType in {"edge", "client"} && |peerId| > 0)
      && (r == Err(MissingField) <==> |peerType| == 0 || |peerId| == 0)
      && (r == Err(BadPeerType) <==> |peerType| > 0 && |peerId| > 0 && peerType !in {"edge", "client"})
      && (r.Ok? ==>
            && r.value.username == peerType + ":" + peerId + ":" + PrintInt(r.value.expiry)
            && (IsInt64(now + ttl) && ttl != 0 ==> r.value.expiry == now + ttl)
            && (IsInt64(now + configuredTtl) && ttl == 0 ==> r.value.expiry == now + configuredTtl))
  {
    if peerType in {"edge", "client"} && peerId != "" {
      var c := IssueOverRest(crypto, secret, configuredTtl, peerType, peerId, ttl, now).value;
      assert c.username == peerType + ":" + peerId + ":" + PrintInt(c.expiry);
    }
  }

  /** Padding brings a text up to a multiple of four characters with at most two '='. */
  lemma PaddedForm(text: string) returns (pads: string)
    requires |text| % 4 != 1
    ensures Padded(text) == text + pads && |text + pads| % 4 == 0 && pads in {"", "=", "=="}
  {
    if |text| % 4 == 2 {
      pads := "==";
      assert |text + pads| == |text| + 2;
    } else if |text| % 4 == 3 {
      pads := "=";
      assert |text + pads| == |text| + 1;
    } else {
      pads := "";
      assert text + pads == text;
    }
  }

  /** A password is so padded, and what stands before the padding is the base64 text of the HMAC of the username. */
  lemma PasswordForm(crypto: Crypto, secret: string, username: string) returns (text: string, pads: string)
    ensures Password(crypto, secret, username) == text + pads && |text + pads| % 4 == 0 && pads in {"", "=", "=="}
    ensures '=' !in text && Base64.Decode(Base64.Std, text) == Some(crypto.hmac(secret, username))
  {
    var mac := crypto.hmac(secret, username);
    text := Base64.Encode(Base64.Std, mac);
    Base64.DecodeEncode(Base64.Std, mac);
    Base64.EncodeAlphabet(Base64.Std, mac);
    Base64.StripIdentity(text);
    Base64.DecodeLength(Base64.Std, text);
    assert !Base64.InAlphabet(Base64.Std, '=');
    pads := PaddedForm(text);
  }

  // ---------- parsing ----------

  datatype Fields = Fields(peerType: string, peerId: string, expiry: int)

  function FromParts(parts: seq<string>): Option<Fields> {
    if |parts| != 3 then None else
    match ParseInt(parts[2])
    case None => None
    case Some(expiry) => Some(Fields(parts[0], parts[1], expiry))
  }

  function ParseUsername(username: string): Option<Fields> { FromParts(SplitN(username, ':', 3)) }

  predicate ColonFree(s: string) { ':' !in s }

  lemma SplitUsername(peerType: string, peerId: string, third: string)
    requires ColonFree(peerType) && ColonFree(peerId)
    ensures SplitN(peerType + [':'] + (peerId + [':'] + third), ':', 3) == [peerType] + ([peerId] + [third])
  {
    SplitHead(peerId, ':', third, 2);
    assert SplitN(third, ':', 1) == [third];
    SplitHead(peerType, ':', peerId + [':'] + third, 3);
  }

  function Colons(s: string): nat {
    if s == [] then 0 else (if s[0] == ':' then 1 else 0) + Colons(s[1..])
  }

  lemma {:induction false} ColonsConcat(s: string, t: string)
    ensures Colons(s + t) == Colons(s) + Colons(t)
  {
    if s == [] {
      assert s + t == t;
    } else {
      assert (s + t)[1..] == s[1..] + t;
      ColonsConcat(s[1..], t);
    }
  }

  lemma {:induction false} ColonsZero(s: string)
    ensures Colons(s) == 0 <==> ColonFree(s)
  {
    if s != [] {
      ColonsZero(s[1..]);
    }
  }

  /** After the first ':' one colon fewer is left. */
  lemma {:induction false} ColonsAfterFirst(s: string)
    requires !ColonFree(s)
    ensures Find(s, ':') < |s|
    ensures Colons(s[Find(s, ':') + 1..]) == Colons(s) - 1
  {
    if s[0] != ':' {
      var rest := s[1..];
      var i := Find(rest, ':');
      assert s == [s[0]] + rest;
      ColonsAfterFirst(rest);
      assert s[i + 2..] == rest[i + 1..];
    }
  }

  /** One split step takes one colon off. */
  lemma SplitStep(s: string, n: nat) returns (head: string, rest: string)
    requires n > 1 && 0 < Colons(s)
    ensures Colons(rest) == Colons(s) - 1
    ensures SplitN(s, ':', n) == [head] + SplitN(rest, ':', n - 1)
  {
    ColonsZero(s);
    ColonsAfterFirst(s);
    head, rest := SplitCut(s, ':', n);
  }

  /** A split takes one colon off per part; what is left over stays in the last part. */
  lemma {:induction false} LastPartColons(s: string, n: nat)
    requires 0 < n && n - 1 <= Colons(s)
    ensures var parts := SplitN(s, ':', n); |parts| == n && Colons(parts[n - 1]) == Colons(s) - (n - 1)
    decreases n
  {
    if n > 1 {
      var head, rest := SplitStep(s, n);
      LastPartColons(rest, n - 1);
    }
  }

  /** With three or more colons the third field still holds one, so it is not a number. */
  lemma ManyColonsRejected(username: string)
    requires Colons(username) > 2
    ensures ParseUsername(username) == None
  {
    LastPartColons(username, 3);
    var third := SplitN(username, ':', 3)[2];
    ColonsZero(third);
    ParseIntRejects(third, ':');
  }

  lemma ParseColonFree(peerType: string, peerId: string, expiry: int)
    requires IsInt64(expiry) && ColonFree(peerType) && ColonFree(peerId)
    ensures ParseUsername(Username(peerType, peerId, expiry)) == Some(Fields(peerType, peerId, expiry))
  {
    var third := PrintInt(expiry);
    SplitUsername(peerType, peerId, third);
    ParsePrintInt(expiry);
    assert FromParts([peerType] + ([peerId] + [third])) == Some(Fields(peerType, peerId, expiry));
  }

  lemma UsernameColons(peerType: string, peerId: string, expiry: int)
    ensures Colons(Username(peerType, peerId, expiry)) >= 2 + Colons(peerType) + Colons(peerId)
  {
    var third := PrintInt(expiry);
    ColonsConcat(peerType + [':'], peerId + [':'] + third);
    ColonsConcat(peerType, [':']);
    ColonsConcat(peerId + [':'], third);
    ColonsConcat(peerId, [':']);
    assert Colons([':']) == 1;
  }

  /**
   * Printing and parsing invert each other exactly on colon-free types and ids: the parser returns
   * the printed triple then, and rejects the username otherwise.
   */
  lemma ParseInvertsUsername(peerType: string, peerId: string, expiry: int)
    requires IsInt64(expiry)
    ensures ParseUsername(Username(peerType, peerId, expiry))
         == if ColonFree(peerType) && ColonFree(peerId) then Some(Fields(peerType, peerId, expiry)) else None
  {
    if ColonFree(peerType) && ColonFree(peerId) {
      ParseColonFree(peerType, peerId, expiry);
    } else {
      ColonsZero(peerType);
      ColonsZero(peerId);
      UsernameColons(peerType, peerId, expiry);
      ManyColonsRejected(Username(peerType, peerId, expiry));
    }
  }

  lemma UsernameInjective(t1: string, i1: string, e1: int, t2: string, i2: string, e2: int)
    requires IsInt64(e1) && IsInt64(e2)
    requires ColonFree(t1) && ColonFree(i1) && ColonFree(t2) && ColonFree(i2)
    requires Username(t1, i1, e1) == Username(t2, i2, e2)
    ensures t1 == t2 && i1 == i2 && e1 == e2
  {
    ParseInvertsUsername(t1, i1, e1);
    ParseInvertsUsername(t2, i2, e2);
  }

  // ---------- the time window ----------

  /** A wall-clock reading: seconds since 1970 and the nanoseconds within the second. */
  datatype Instant = Instant(sec: int, nsec: int)

  /** time.Time counts seconds from year 1 in an int64, so building one from a far expiry wraps. */
  const UNIX_TO_INTERNAL: int := 62135596800

  function InternalSeconds(sec: int): int { Wrap64(sec + UNIX_TO_INTERNAL) }

  /** The clock reads a time after 1970 that is not within 48 hours of the end of the int64 range. */
  predicate ClockOk(t: Instant) {
    0 <= t.sec && t.sec + 172_800 + 62_135_596_800 <= MAX_INT64 && 0 <= t.nsec < 1_000_000_000
  }

  predicate NotLater(a: Instant, b: Instant) { a.sec < b.sec || (a.sec == b.sec && a.nsec <= b.nsec) }

  /** time.Unix(expiry, 0).Before(now) */
  predicate Expired(expiry: int, now: Instant) {
    InternalSeconds(expiry) < InternalSeconds(now.sec)
    || (InternalSeconds(expiry) == InternalSeconds(now.sec) && 0 < now.nsec)
  }

  /** time.Unix(expiry, 0).After(now.Add(48 * time.Hour)) */
  predicate TooFar(expiry: int, now: Instant) {
    InternalSeconds(expiry) > InternalSeconds(now.sec + WINDOW)
    || (InternalSeconds(expiry) == InternalSeconds(now.sec + WINDOW) && 0 > now.nsec)
  }

  /** The clock has not passed the second `expiry`. */
  predicate NotPast(expiry: int, now: Instant) { now.sec < expiry || (now.sec == expiry && now.nsec == 0) }

  /** From the first reading to 48 hours after the second. */
  predicate InWindow(expiry: int, first: Instant, second: Instant) {
    NotPast(expiry, first) && expiry <= second.sec + 172_800
  }

  /**
   * The two checks, made with two clock readings, leave the window [first, second + 48h]: an expiry
   * so far ahead that its time.Time wraps around is still turned down, as if long past.
   */
  lemma WindowExactly(expiry: int, first: Instant, second: Instant)
    requires IsInt64(expiry) && ClockOk(first) && ClockOk(second)
    ensures !Expired(expiry, first) && !TooFar(expiry, second)
       <==> (first.sec < expiry || (first.sec == expiry && first.nsec == 0)) && expiry <= second.sec + 172_800
  {
    assert WINDOW == 172_800;
    assert InternalSeconds(first.sec) == first.sec + UNIX_TO_INTERNAL;
    assert InternalSeconds(second.sec + WINDOW) == second.sec + WINDOW + UNIX_TO_INTERNAL;
    if expiry + UNIX_TO_INTERNAL > MAX_INT64 {
      assert InternalSeconds(expiry) == expiry + UNIX_TO_INTERNAL - 0x1_0000_0000_0000_0000;
    }
  }

  // ---------- the choice of the secret ----------

  function FirstNonEmpty(secrets: seq<string>): (r: Option<string>)
    ensures r.Some? ==> r.value != "" && r.value in secrets
  {
    if secrets == [] then None
    else if secrets[0] != "" then assert secrets[0] in secrets; Some(secrets[0])
    else FirstNonEmpty(secrets[1..])
  }

  /** The answer is at the first non-empty position; there is none exactly when all are empty. */
  lemma {:induction false} FirstNonEmptyIsFirst(secrets: seq<string>, i: nat)
    requires i < |secrets| && secrets[i] != "" && forall j | 0 <= j < i :: secrets[j] == ""
    ensures FirstNonEmpty(secrets) == Some(secrets[i])
  {
    if i > 0 {
      assert secrets[0] == "";
      FirstNonEmptyIsFirst(secrets[1..], i - 1);
    }
  }

  lemma {:induction false} FirstNonEmptyNone(secrets: seq<string>)
    ensures FirstNonEmpty(secrets).None? <==> forall s | s in secrets :: s == ""
  {
    if secrets != [] {
      FirstNonEmptyNone(secrets[1..]);
      assert secrets == [secrets[0]] + secrets[1..];
    }
  }

  /** The whole decision of restAuth, given the pair of secrets it read and its two clock readings. */
  function RestDecision(crypto: Crypto, secret: string, oldSecrets: seq<string>,
                        username: string, realm: string, first: Instant, second: Instant): Option<Bytes> {
    match ParseUsername(username)
    case None => None
    case Some(fields) =>
      if Expired(fields.expiry, first) || TooFar(fields.expiry, second) then None else
      match FirstNonEmpty([secret] + oldSecrets)
      case None => None
      case Some(s) => Some(crypto.authKey(username, realm, Password(crypto, s, username)))
  }

  /** The username has the format and its expiry lies in the window. */
  predicate PastChecks(username: string, first: Instant, second: Instant) {
    match ParseUsername(username)
    case None => false
    case Some(fields) => !Expired(fields.expiry, first) && !TooFar(fields.expiry, second)
  }

  /**
   * Past those checks the answer is the key under the first non-empty secret, and there is none
   * exactly when all are empty.
   */
  lemma DecisionPastChecks(crypto: Crypto, secret: string, oldSecrets: seq<string>,
                           username: string, realm: string, first: Instant, second: Instant)
    requires PastChecks(username, first, second)
    ensures var secrets := [secret] + oldSecrets;
      var key := RestDecision(crypto, secret, oldSecrets, username, realm, first, second);
      && (key.None? <==> forall s | s in secrets :: s == "")
      && forall i | 0 <= i < |secrets| && secrets[i] != "" && forall j | 0 <= j < i :: secrets[j] == "" ::
           key == Some(crypto.authKey(username, realm, Password(crypto, secrets[i], username)))
  {
    var secrets := [secret] + oldSecrets;
    FirstNonEmptyNone(secrets);
    forall i | 0 <= i < |secrets| && secrets[i] != "" && forall j | 0 <= j < i :: secrets[j] == ""
      ensures FirstNonEmpty(secrets) == Some(secrets[i])
    {
      FirstNonEmptyIsFirst(secrets, i);
    }
  }

  /** The key a client holding this password derives. */
  function ClientKey(crypto: Crypto, credentials: Credentials, realm: string): Bytes {
    crypto.authKey(credentials.username, realm, credentials.password)
  }

  /**
   * A credential is answered with a key exactly inside its window, and never when its type or id
   * holds a ':'.  The key is the one its holder derives if the first non-empty secret is the issuer's.
   */
  lemma AcceptanceWindow(crypto: Crypto, issuer: string, peerType: string, peerId: string, ttl: int, issued: int,
                         c: Credentials, secret: string, oldSecrets: seq<string>, realm: string,
                         first: Instant, second: Instant)
    requires ClockOk(first) && ClockOk(second)
    requires c == Issue(crypto, issuer, peerType, peerId, ttl, issued)
    requires FirstNonEmpty([secret] + oldSecrets) == Some(issuer)
    ensures RestDecision(crypto, secret, oldSecrets, c.username, realm, first, second)
         == if ColonFree(peerType) && ColonFree(peerId) && InWindow(c.expiry, first, second)
            then Some(ClientKey(crypto, c, realm)) else None
  {
    ParseInvertsUsername(peerType, peerId, c.expiry);
    WindowExactly(c.expiry, first, second);
  }

  /**
   * What the credentials endpoint hands out under a secret that the TURN server also has first: every
   * request with a known peer type and some peer id is answered, and since neither type holds a ':',
   * only the id and the window then decide.
   */
  lemma EndpointCredentials(crypto: Crypto, issuer: string, configuredTtl: int, peerType: string, peerId: string,
                            ttl: int, issued: int, oldSecrets: seq<string>, realm: string,
                            first: Instant, second: Instant)
    returns (c: Credentials)
    requires ClockOk(first) && ClockOk(second) && issuer != ""
    requires peerType in {"edge", "client"} && peerId != ""
    ensures IssueOverRest(crypto, issuer, configuredTtl, peerType, peerId, ttl, issued) == Ok(c)
    ensures c.expiry == Wrap64(issued + if ttl == 0 then configuredTtl else ttl)
    ensures RestDecision(crypto, issuer, oldSecrets, c.username, realm, first, second)
         == if ColonFree(peerId) && InWindow(c.expiry, first, second) then Some(ClientKey(crypto, c, realm)) else None
  {
    var effective := if ttl == 0 then configuredTtl else ttl;
    c := Issue(crypto, issuer, peerType, peerId, effective, issued);
    EndpointIssues(crypto, issuer, configuredTtl, peerType, peerId, ttl, issued);
    FirstNonEmptyIsFirst([issuer] + oldSecrets, 0);
    AcceptanceWindow(crypto, issuer, peerType, peerId, effective, issued, c, issuer, oldSecrets, realm, first, second);
  }

  /** The endpoint prints a colon-free peer type and passes on the ttl, or the configured one for zero. */
  lemma EndpointIssues(crypto: Crypto, issuer: string, configuredTtl: int, peerType: string, peerId: string,
                       ttl: int, issued: int)
    requires peerType in {"edge", "client"} && peerId != ""
    ensures ColonFree(peerType)
    ensures IssueOverRest(crypto, issuer, configuredTtl, peerType, peerId, ttl, issued)
         == Ok(Issue(crypto, issuer, peerType, peerId, if ttl == 0 then configuredTtl else ttl, issued))
  {
    assert ColonFree("edge") && ColonFree("client");
  }

  /** A positive ttl of at most 48 hours: answered with the holder's key from issue to expiry and never after. */
  lemma WholeLifetime(crypto: Crypto, issuer: string, peerType: string, peerId: string, ttl: int, issued: Instant,
                      c: Credentials, secret: string, oldSecrets: seq<string>, realm: string,
                      first: Instant, second: Instant)
    requires ClockOk(issued) && ClockOk(first) && ClockOk(second)
    requires NotLater(issued, first) && NotLater(first, second)
    requires 0 < ttl <= 172_800 && ColonFree(peerType) && ColonFree(peerId)
    requires c == Issue(crypto, issuer, peerType, peerId, ttl, issued.sec)
    requires FirstNonEmpty([secret] + oldSecrets) == Some(issuer)
    ensures RestDecision(crypto, secret, oldSecrets, c.username, realm, first, second)
         == if first.sec < issued.sec + ttl || (first.sec == issued.sec + ttl && first.nsec == 0)
            then Some(ClientKey(crypto, c, realm)) else None
  {
    AcceptanceWindow(crypto, issuer, peerType, peerId, ttl, issued.sec, c, secret, oldSecrets, realm, first, second);
    assert c.expiry == issued.sec + ttl;
  }

  /**
   * A longer ttl opens the window only 48 hours before the expiry: the credential is refused at issue and
   * as long as the second reading is earlier than that, and answered from then on until it expires.
   */
  lemma LongLivedOnlyAtTheEnd(crypto: Crypto, issuer: string, peerType: string, peerId: string, ttl: int,
                              issued: Instant, c: Credentials, secret: string, oldSecrets: seq<string>, realm: string,
                              first: Instant, second: Instant)
    requires ClockOk(issued) && ClockOk(first) && ClockOk(second)
    requires NotLater(issued, first) && NotLater(first, second)
    requires 172_800 < ttl && IsInt64(issued.sec + ttl) && ColonFree(peerType) && ColonFree(peerId)
    requires c == Issue(crypto, issuer, peerType, peerId, ttl, issued.sec)
    requires FirstNonEmpty([secret] + oldSecrets) == Some(issuer)
    ensures RestDecision(crypto, secret, oldSecrets, c.username, realm, issued, issued) == None
    ensures RestDecision(crypto, secret, oldSecrets, c.username, realm, first, second)
         == if issued.sec + ttl - 172_800 <= second.sec
               && (first.sec < issued.sec + ttl || (first.sec == issued.sec + ttl && first.nsec == 0))
            then Some(ClientKey(crypto, c, realm)) else None
  {
    AcceptanceWindow(crypto, issuer, peerType, peerId, ttl, issued.sec, c, secret, oldSecrets, realm, issued, issued);
    AcceptanceWindow(crypto, issuer, peerType, peerId, ttl, issued.sec, c, secret, oldSecrets, realm, first, second);
    assert c.expiry == issued.sec + ttl;
  }

  /** Once refused as expired, refused at every later reading. */
  lemma NeverAgain(crypto: Crypto, secret: string, oldSecrets: seq<string>, username: string, realm: string,
                   t: Instant, first: Instant, second: Instant)
    requires ClockOk(t) && ClockOk(first) && ClockOk(second) && NotLater(t, first)
    requires ParseUsername(username).Some? && Expired(ParseUsername(username).value.expiry, t)
    ensures RestDecision(crypto, secret, oldSecrets, username, realm, first, second) == None
  {
    assert InternalSeconds(t.sec) == t.sec + UNIX_TO_INTERNAL;
    assert InternalSeconds(first.sec) == first.sec + UNIX_TO_INTERNAL;
  }

  // ---------- secret rotation ----------

  /** No listed secret other than `issuer` gives the key that `issuer` gives for this username. */
  predicate KeysDistinguish(crypto: Crypto, listed: seq<string>, issuer: string, username: string, realm: string) {
    forall s | s in listed && s != issuer ::
      && crypto.hmac(s, username) != crypto.hmac(issuer, username)
      && (crypto.authKey(username, realm, Password(crypto, s, username))
          == crypto.authKey(username, realm, Password(crypto, issuer, username))
          ==> Password(crypto, s, username) == Password(crypto, issuer, username))
  }

  lemma PasswordInjective(crypto: Crypto, s1: string, s2: string, username: string)
    ensures Password(crypto, s1, username) == Password(crypto, s2, username)
       <==> crypto.hmac(s1, username) == crypto.hmac(s2, username)
  {
    var m1, m2 := crypto.hmac(s1, username), crypto.hmac(s2, username);
    var e1, e2 := Base64.Encode(Base64.Std, m1), Base64.Encode(Base64.Std, m2);
    Base64.DecodeEncode(Base64.Std, m1);
    Base64.DecodeEncode(Base64.Std, m2);
    Base64.EncodeAlphabet(Base64.Std, m1);
    Base64.EncodeAlphabet(Base64.Std, m2);
    assert !Base64.InAlphabet(Base64.Std, '=');
    PaddedPrefix(e1);
    PaddedPrefix(e2);
  }

  /** The padding starts at the first '='. */
  lemma PaddedPrefix(e: string)
    requires '=' !in e
    ensures Padded(e)[..Find(Padded(e), '=')] == e
  {
    var p := Padded(e);
    assert p[..|e|] == e;
    if |e| < |p| {
      FindIs(p, '=', |e|);
    } else {
      assert p == e;
    }
  }

  /**
   * Current and old secrets are tried in order, but the first non-empty one always answers.  So,
   * unless HMACs or keys collide, a credential issued under `issuer` still works after a rotation exactly when
   * the issuer's secret is the first non-empty one, not whenever it is listed among the old ones.
   */
  lemma RotationKeepsExactly(crypto: Crypto, issuer: string, username: string, realm: string,
                             secret: string, oldSecrets: seq<string>, first: Instant, second: Instant)
    requires KeysDistinguish(crypto, [secret] + oldSecrets, issuer, username, realm)
    requires PastChecks(username, first, second)
    ensures RestDecision(crypto, secret, oldSecrets, username, realm, first, second)
            == Some(crypto.authKey(username, realm, Password(crypto, issuer, username)))
       <==> FirstNonEmpty([secret] + oldSecrets) == Some(issuer)
  {
    var found := FirstNonEmpty([secret] + oldSecrets);
    if found.Some? {
      PasswordInjective(crypto, found.value, issuer, username);
    }
  }

  /** With a non-empty current secret the old ones have no influence at all. */
  lemma OldSecretsUnused(crypto: Crypto, secret: string, old1: seq<string>, old2: seq<string>,
                         username: string, realm: string, first: Instant, second: Instant)
    requires secret != ""
    ensures RestDecision(crypto, secret, old1, username, realm, first, second)
         == RestDecision(crypto, secret, old2, username, realm, first, second)
  {
    assert ([secret] + old1)[0] == secret && ([secret] + old2)[0] == secret;
  }

  // ---------- the handler ----------

  class AuthHandler {
    const mode: string
    const crypto: Crypto
    var secret: string
    var oldSecrets: seq<string>
    var ttl: int
    const staticUsers: map<string, string>

    constructor (mode: string, secret: string, oldSecrets: seq<string>, ttl: int,
                 staticUsers: map<string, string>, crypto: Crypto)
      ensures this.mode == mode && this.crypto == crypto && this.staticUsers == staticUsers
      ensures this.secret == secret && this.oldSecrets == oldSecrets && this.ttl == ttl
    {
      this.mode, this.crypto, this.staticUsers := mode, crypto, staticUsers;
      this.secret, this.oldSecrets, this.ttl := secret, oldSecrets, ttl;
    }

    /** The answer to an authentication request, as a function of the handler's fields. */
    function Answer(username: string, realm: string, first: Instant, second: Instant): Option<Bytes>
      reads this
    {
      if mode == "rest" then RestDecision(crypto, secret, oldSecrets, username, realm, first, second)
      else if mode == "static" && username in staticUsers
      then Some(crypto.authKey(username, realm, staticUsers[username]))
      else None
    }

    method AuthenticateRequest(username: string, realm: string, first: Instant, second: Instant)
      returns (key: Option<Bytes>)
      ensures key == Answer(username, realm, first, second)
      ensures mode == "rest" ==> key == RestDecision(crypto, secret, oldSecrets, username, realm, first, second)
      ensures mode == "static" ==>
        key == if username in staticUsers then Some(crypto.authKey(username, realm, staticUsers[username])) else None
      ensures mode != "rest" && mode != "static" ==> key == None
    {
      if mode == "rest" {
        key := RestAuth(username, realm, first, second);
      } else if mode == "static" {
        key := StaticAuth(username, realm);
      } else {
        key := None;
      }
    }

    method RestAuth(username: string, realm: string, first: Instant, second: Instant)
      returns (key: Option<Bytes>)
      ensures key == RestDecision(crypto, secret, oldSecrets, username, realm, first, second)
    {
      var parts := SplitN(username, ':', 3);
      if |parts| != 3 {
        return None;
      }
      var expiry := ParseInt(parts[2]);
      if expiry.None? {
        return None;
      }
      if Expired(expiry.value, first) {
        return None;
      }
      if TooFar(expiry.value, second) {
        return None;
      }
      var secrets := [secret] + oldSecrets;
      var i := 0;
      while i < |secrets|
        invariant 0 <= i <= |secrets|
        invariant FirstNonEmpty(secrets) == FirstNonEmpty(secrets[i..])
      {
        if secrets[i] == "" {
          i := i + 1;
          continue;
        }
        var mac := crypto.hmac(secrets[i], username);
        var expectedPassword := Padded(Base64.Encode(Base64.Std, mac));
        return Some(crypto.authKey(username, realm, expectedPassword));
      }
      return None;
    }

    method StaticAuth(username: string, realm: string) returns (key: Option<Bytes>)
      ensures key.Some? <==> username in staticUsers
      ensures key.Some? ==> key.value == crypto.authKey(username, realm, staticUsers[username])
    {
      if username !in staticUsers {
        return None;
      }
      return Some(crypto.authKey(username, realm, staticUsers[username]));
    }

    method UpdateSecrets(current: string, previous: seq<string>, ttl: int)
      modifies this
      ensures secret == current && oldSecrets == previous && this.ttl == ttl
    {
      secret := current;
      oldSecrets := previous;
      this.ttl := ttl;
    }
  }
}

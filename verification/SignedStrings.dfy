/** relay/webview_cookie.go and relay/sigauth.go: the strings that get signed. HMAC and SHA-256 are
    parameters; what is proved is about how the strings are built and taken apart. */
module SignedStrings {
  import opened Wrappers
  import opened Text
  import opened Wire

  // ----- base64.RawURLEncoding -----

  function UrlChar(i: nat): char
    requires i < 64
  {
    if i < 26 then 'A' + i as char
    else if i < 52 then 'a' + (i - 26) as char
    else if i < 62 then '0' + (i - 52) as char
    else if i == 62 then '-' else '_'
  }

  function RawUrl(b: seq<byte>): string {
    if b == [] then ""
    else if |b| == 1 then [UrlChar(b[0] / 4), UrlChar(b[0] % 4 * 16)]
    else if |b| == 2 then [UrlChar(b[0] / 4), UrlChar(b[0] % 4 * 16 + b[1] / 16), UrlChar(b[1] % 16 * 4)]
    else
      [UrlChar(b[0] / 4), UrlChar(b[0] % 4 * 16 + b[1] / 16), UrlChar(b[1] % 16 * 4 + b[2] / 64), UrlChar(b[2] % 64)]
      + RawUrl(b[3..])
  }

  /** Section 5 of RFC 4648: the alphabet has no '.'. */
  lemma {:induction false} RawUrlHasNoDot(b: seq<byte>)
    ensures '.' !in RawUrl(b)
  {
    if |b| >= 3 { RawUrlHasNoDot(b[3..]); }
  }

  /** The value of a character of the alphabet. */
  function UrlValue(c: char): (v: Option<nat>)
    ensures v.Some? ==> v.value < 64 && UrlChar(v.value) == c
  {
    if 'A' <= c <= 'Z' then Some((c - 'A') as nat)
    else if 'a' <= c <= 'z' then Some((c - 'a') as nat + 26)
    else if '0' <= c <= '9' then Some((c - '0') as nat + 52)
    else if c == '-' then Some(62)
    else if c == '_' then Some(63)
    else None
  }

  function UrlValues(s: string): (vs: Option<seq<nat>>)
    ensures vs.Some? ==> |vs.value| == |s| && forall i :: 0 <= i < |s| ==> vs.value[i] < 64 && UrlChar(vs.value[i]) == s[i]
  {
    if s == "" then Some([])
    else
      var v, rest := UrlValue(s[0]), UrlValues(s[1..]);
      if v.None? || rest.None? then None else Some([v.value] + rest.value)
  }

  /** Unpadded base64url read back (section 5 of RFC 4648); bits left over must be zero. */
  function Unpack(v: seq<nat>): Option<seq<byte>>
    requires forall i :: 0 <= i < |v| ==> v[i] < 64
  {
    if v == [] then Some([])
    else if |v| == 1 then None
    else if |v| == 2 then (if v[1] % 16 != 0 then None else Some([v[0] * 4 + v[1] / 16]))
    else if |v| == 3 then (if v[2] % 4 != 0 then None else Some([v[0] * 4 + v[1] / 16, v[1] % 16 * 16 + v[2] / 4]))
    else
      var rest := Unpack(v[4..]);
      if rest.None? then None
      else Some([v[0] * 4 + v[1] / 16, v[1] % 16 * 16 + v[2] / 4, v[2] % 4 * 64 + v[3]] + rest.value)
  }

  function DecodeRawUrl(s: string): Option<seq<byte>> {
    var vs := UrlValues(s);
    if vs.None? then None else Unpack(vs.value)
  }

  lemma ValueOfChar(i: nat)
    requires i < 64
    ensures UrlValue(UrlChar(i)) == Some(i)
  {
  }

  lemma {:induction false} ValuesOf(s: string, v: seq<nat>)
    requires |s| == |v| && forall i :: 0 <= i < |v| ==> v[i] < 64 && s[i] == UrlChar(v[i])
    ensures UrlValues(s) == Some(v)
  {
    if s != "" {
      ValueOfChar(v[0]);
      ValuesOf(s[1..], v[1..]);
      assert v == [v[0]] + v[1..];
    }
  }

  /** The digits of a byte string: three bytes make four. */
  function Pack(b: seq<byte>): (v: seq<nat>)
    ensures forall i :: 0 <= i < |v| ==> v[i] < 64
    ensures |v| == |b| / 3 * 4 + (if |b| % 3 == 0 then 0 else |b| % 3 + 1)
  {
    if b == [] then []
    else if |b| == 1 then [b[0] / 4, b[0] % 4 * 16]
    else if |b| == 2 then [b[0] / 4, b[0] % 4 * 16 + b[1] / 16, b[1] % 16 * 4]
    else [b[0] / 4, b[0] % 4 * 16 + b[1] / 16, b[1] % 16 * 4 + b[2] / 64, b[2] % 64] + Pack(b[3..])
  }

  lemma {:induction false} RawUrlIsPacked(b: seq<byte>)
    ensures |RawUrl(b)| == |Pack(b)| && forall i :: 0 <= i < |Pack(b)| ==> RawUrl(b)[i] == UrlChar(Pack(b)[i])
  {
    hide UrlChar;
    if |b| >= 3 { RawUrlIsPacked(b[3..]); }
  }

  lemma ThreeBytes(x: byte, y: byte, z: byte)
    ensures x / 4 * 4 + (x % 4 * 16 + y / 16) / 16 == x
    ensures (x % 4 * 16 + y / 16) % 16 * 16 + (y % 16 * 4 + z / 64) / 4 == y
    ensures (y % 16 * 4 + z / 64) % 4 * 64 + z % 64 == z
  {
  }

  lemma UnpackTwo(x: byte, y: byte)
    ensures Unpack([x / 4, x % 4 * 16 + y / 16, y % 16 * 4]) == Some([x, y])
  {
    ThreeBytes(x, y, 0);
    assert y % 16 * 4 % 4 == 0 && y % 16 * 4 / 4 == y % 16;
  }

  lemma {:induction false} UnpackOfPack(b: seq<byte>)
    ensures Unpack(Pack(b)) == Some(b)
  {
    if |b| >= 3 {
      UnpackOfPack(b[3..]);
      ThreeBytes(b[0], b[1], b[2]);
      var head := [b[0] / 4, b[0] % 4 * 16 + b[1] / 16, b[1] % 16 * 4 + b[2] / 64, b[2] % 64];
      assert (head + Pack(b[3..]))[4..] == Pack(b[3..]);
      assert b == [b[0], b[1], b[2]] + b[3..];
    } else if |b| == 2 {
      UnpackTwo(b[0], b[1]);
      assert b == [b[0], b[1]];
    } else if |b| == 1 {
      ThreeBytes(b[0], 0, 0);
      assert b == [b[0]];
    }
  }

  lemma FourDigits(p: nat, q: nat, r: nat, t: nat)
    requires p < 64 && q < 64 && r < 64 && t < 64
    ensures var x, y, z := p * 4 + q / 16, q % 16 * 16 + r / 4, r % 4 * 64 + t;
      x < 256 && y < 256 && z < 256 && x / 4 == p && x % 4 * 16 + y / 16 == q && y % 16 * 4 + z / 64 == r && z % 64 == t
  {
  }

  lemma PackThree(x: byte, y: byte, z: byte, rest: seq<byte>)
    ensures Pack([x, y, z] + rest) == [x / 4, x % 4 * 16 + y / 16, y % 16 * 4 + z / 64, z % 64] + Pack(rest)
  {
    assert ([x, y, z] + rest)[3..] == rest;
  }

  lemma PackFour(p: nat, q: nat, r: nat, t: nat, rest: seq<byte>)
    requires p < 64 && q < 64 && r < 64 && t < 64
    ensures Pack([p * 4 + q / 16, q % 16 * 16 + r / 4, r % 4 * 64 + t] + rest) == [p, q, r, t] + Pack(rest)
  {
    FourDigits(p, q, r, t);
    PackThree(p * 4 + q / 16, q % 16 * 16 + r / 4, r % 4 * 64 + t, rest);
    hide Pack;
  }

  lemma PackShort(p: nat, q: nat, r: nat)
    requires p < 64 && q < 64 && r < 64
    ensures q % 16 == 0 ==> Pack([p * 4 + q / 16]) == [p, q]
    ensures r % 4 == 0 ==> Pack([p * 4 + q / 16, q % 16 * 16 + r / 4]) == [p, q, r]
  {
    FourDigits(p, q, r, 0);
  }

  lemma {:induction false} PackOfUnpack(v: seq<nat>)
    requires (forall i :: 0 <= i < |v| ==> v[i] < 64) && Unpack(v).Some?
    ensures Pack(Unpack(v).value) == v
  {
    if |v| >= 4 {
      PackOfUnpack(v[4..]);
      PackFour(v[0], v[1], v[2], v[3], Unpack(v[4..]).value);
      hide Pack;
      assert v == [v[0], v[1], v[2], v[3]] + v[4..];
    } else if |v| == 3 {
      PackShort(v[0], v[1], v[2]);
      hide Pack;
    } else if |v| == 2 {
      PackShort(v[0], v[1], 0);
      hide Pack;
    }
  }

  /** The encoding loses nothing: it reads back as the bytes encoded, and nothing else reads so; three bytes take
      four characters. */
  lemma DecodesIff(s: string, b: seq<byte>)
    ensures DecodeRawUrl(s) == Some(b) <==> s == RawUrl(b)
    ensures |RawUrl(b)| == |b| / 3 * 4 + (if |b| % 3 == 0 then 0 else |b| % 3 + 1)
  {
    RawUrlIsPacked(b);
    hide UrlChar;
    ValuesOf(RawUrl(b), Pack(b));
    UnpackOfPack(b);
    if DecodeRawUrl(s) == Some(b) {
      PackOfUnpack(UrlValues(s).value);
      assert s == RawUrl(b);
    }
  }

  // ----- The webview cookie -----

  function Sign(hmac: (string, string) -> seq<byte>, secret: string, payload: string): string { RawUrl(hmac(secret, payload)) }

  function Mint(hmac: (string, string) -> seq<byte>, secret: string, deviceID: string, expiry: int): string {
    var payload := deviceID + "." + FormatInt(expiry);
    payload + "." + Sign(hmac, secret, payload)
  }

  function Verify(hmac: (string, string) -> seq<byte>, secret: string, value: string, deviceID: string, now: int): bool {
    if value == "" || deviceID == "" || secret == "" then false
    else
      var lastDot := LastIndex(value, '.');
      if lastDot <= 0 then false
      else
        var payload, sig := value[..lastDot], value[lastDot+1..];
        if sig != Sign(hmac, secret, payload) then false
        else
          var expDot := LastIndex(payload, '.');
          if expDot <= 0 then false
          else if payload[..expDot] != deviceID then false
          else
            var exp := ParseInt64(payload[expDot+1..]);
            exp.Some? && now < exp.value
  }

  /** The value is the device id, an expiry still ahead, and the signature of both, joined by dots. */
  ghost predicate WellSigned(hmac: (string, string) -> seq<byte>, secret: string, value: string, deviceID: string, now: int, s: string) {
    var payload := deviceID + "." + s;
    ParseInt64(s).Some? && now < ParseInt64(s).value && value == payload + "." + Sign(hmac, secret, payload)
  }

  lemma VerifiedIsWellSigned(hmac: (string, string) -> seq<byte>, secret: string, value: string, deviceID: string, now: int) returns (s: string)
    requires Verify(hmac, secret, value, deviceID, now)
    ensures WellSigned(hmac, secret, value, deviceID, now, s)
  {
    hide Sign, ParseInt64;
    var lastDot := LastIndex(value, '.');
    var payload := value[..lastDot];
    s := payload[LastIndex(payload, '.')+1..];
    assert payload == deviceID + "." + s;
    assert value == payload + "." + value[lastDot+1..];
  }

  /** Accepted exactly when well signed, for device ids with any number of dots. */
  lemma VerifiesIfWellSigned(hmac: (string, string) -> seq<byte>, secret: string, value: string, deviceID: string, now: int)
    requires deviceID != "" && secret != ""
    ensures Verify(hmac, secret, value, deviceID, now) <==> exists s :: WellSigned(hmac, secret, value, deviceID, now, s)
  {
    if Verify(hmac, secret, value, deviceID, now) {
      var s := VerifiedIsWellSigned(hmac, secret, value, deviceID, now);
    }
    if exists s :: WellSigned(hmac, secret, value, deviceID, now, s) {
      var s :| WellSigned(hmac, secret, value, deviceID, now, s);
      WellSignedVerifies(hmac, secret, value, deviceID, now, s);
    }
  }

  /** The value is the device id, an integer expiry still ahead, and a signature, joined by dots, and the signature
      reads back as exactly the MAC of the other two. */
  ghost predicate CarriesMac(hmac: (string, string) -> seq<byte>, secret: string, value: string, deviceID: string, now: int, s: string, sig: string) {
    && value == deviceID + "." + s + "." + sig
    && ParseInt64(s).Some? && now < ParseInt64(s).value
    && DecodeRawUrl(sig) == Some(hmac(secret, deviceID + "." + s))
  }

  /** A value verifies if and only if it carries the whole MAC of its device and expiry. */
  lemma VerifyIff(hmac: (string, string) -> seq<byte>, secret: string, value: string, deviceID: string, now: int)
    ensures Verify(hmac, secret, value, deviceID, now) <==>
      deviceID != "" && secret != "" && exists s, sig :: CarriesMac(hmac, secret, value, deviceID, now, s, sig)
  {
    if deviceID != "" && secret != "" {
      VerifiesIfWellSigned(hmac, secret, value, deviceID, now);
      hide Verify, DecodeRawUrl, ParseInt64, RawUrl;
      if s :| WellSigned(hmac, secret, value, deviceID, now, s) {
        var mac := hmac(secret, deviceID + "." + s);
        DecodesIff(RawUrl(mac), mac);
        assert CarriesMac(hmac, secret, value, deviceID, now, s, RawUrl(mac));
      }
      if s, sig :| CarriesMac(hmac, secret, value, deviceID, now, s, sig) {
        DecodesIff(sig, hmac(secret, deviceID + "." + s));
        assert WellSigned(hmac, secret, value, deviceID, now, s);
      }
    }
  }

  lemma WellSignedVerifies(hmac: (string, string) -> seq<byte>, secret: string, value: string, deviceID: string, now: int, s: string)
    requires deviceID != "" && secret != "" && WellSigned(hmac, secret, value, deviceID, now, s)
    ensures Verify(hmac, secret, value, deviceID, now)
  {
    var payload := deviceID + "." + s;
    var sig := Sign(hmac, secret, payload);
    RawUrlHasNoDot(hmac(secret, payload));
    ParsedHasNo(s, '.');
    LastIndexUnique(payload, '.', sig);
    LastIndexUnique(deviceID, '.', s);
    assert value[..|payload|] == payload && value[|payload|+1..] == sig;
    assert payload[..|deviceID|] == deviceID && payload[|deviceID|+1..] == s;
  }

  /** A minted cookie verifies exactly for its own device and until it expires, whatever dots the ids contain. */
  lemma MintedVerifiesIff(hmac: (string, string) -> seq<byte>, secret: string, deviceID: string, expiry: int, other: string, now: int)
    requires deviceID != "" && secret != "" && -MAX_INT64 - 1 <= expiry <= MAX_INT64
    ensures Verify(hmac, secret, Mint(hmac, secret, deviceID, expiry), other, now) <==> other == deviceID && now < expiry
  {
    ParseOfFormat(expiry);
    var value, s := Mint(hmac, secret, deviceID, expiry), FormatInt(expiry);
    if other == deviceID && now < expiry {
      assert WellSigned(hmac, secret, value, deviceID, now, s);
      WellSignedVerifies(hmac, secret, value, deviceID, now, s);
    } else if Verify(hmac, secret, value, other, now) {
      var s' := VerifiedIsWellSigned(hmac, secret, value, other, now);
      SamePayload(hmac, secret, deviceID, s, other, s');
    }
  }

  lemma SamePayload(hmac: (string, string) -> seq<byte>, secret: string, d: string, s: string, d': string, s': string)
    requires ParseInt64(s).Some? && ParseInt64(s').Some?
    requires d + "." + s + "." + Sign(hmac, secret, d + "." + s) == d' + "." + s' + "." + Sign(hmac, secret, d' + "." + s')
    ensures d == d' && s == s'
  {
    RawUrlHasNoDot(hmac(secret, d + "." + s));
    RawUrlHasNoDot(hmac(secret, d' + "." + s'));
    ParsedHasNo(s, '.');
    ParsedHasNo(s', '.');
    SplitRight(d + "." + s, Sign(hmac, secret, d + "." + s), d' + "." + s', Sign(hmac, secret, d' + "." + s'), '.');
    SplitRight(d, s, d', s', '.');
  }

  /** No value, minted or not, verifies for two devices. */
  lemma CookieBindsOneDevice(hmac: (string, string) -> seq<byte>, secret: string, value: string, d: string, d': string, now: int, now': int)
    requires Verify(hmac, secret, value, d, now) && Verify(hmac, secret, value, d', now')
    ensures d == d'
  {
  }

  // ----- The canonical request string -----

  function HexChar(i: nat): char
    requires i < 16
  {
    if i < 10 then '0' + i as char else 'a' + (i - 10) as char
  }

  function Hex(b: seq<byte>): string {
    if b == [] then "" else [HexChar(b[0] / 16), HexChar(b[0] % 16)] + Hex(b[1..])
  }

  /** Two lower-case hexadecimal digits a byte, the high one first. */
  lemma {:induction false} HexDigits(b: seq<byte>, i: nat)
    requires i < |b|
    ensures |Hex(b)| == 2 * |b|
    ensures Hex(b)[2 * i] == "0123456789abcdef"[b[i] / 16] && Hex(b)[2 * i + 1] == "0123456789abcdef"[b[i] % 16]
  {
    HexLength(b);
    if i == 0 {
      HexCharIsDigit(b[0] / 16);
      HexCharIsDigit(b[0] % 16);
    } else {
      HexDigits(b[1..], i - 1);
      HexLength(b[1..]);
      assert Hex(b)[2..] == Hex(b[1..]);
      assert Hex(b)[2 * i] == Hex(b[1..])[2 * (i - 1)] && Hex(b)[2 * i + 1] == Hex(b[1..])[2 * (i - 1) + 1];
    }
  }

  lemma HexCharIsDigit(i: nat)
    requires i < 16
    ensures HexChar(i) == "0123456789abcdef"[i]
  {
  }

  lemma {:induction false} HexLength(b: seq<byte>)
    ensures |Hex(b)| == 2 * |b|
  {
    if b != [] { HexLength(b[1..]); }
  }

  lemma {:induction false} HexInjective(a: seq<byte>, b: seq<byte>)
    requires Hex(a) == Hex(b)
    ensures a == b
  {
    if a != [] && b != [] {
      assert Hex(a)[0] == Hex(b)[0] && Hex(a)[1] == Hex(b)[1];
      assert Hex(a)[2..] == Hex(a[1..]) && Hex(b)[2..] == Hex(b[1..]);
      HexInjective(a[1..], b[1..]);
    }
  }

  lemma {:induction false} HexHasNoNewline(b: seq<byte>)
    ensures '\n' !in Hex(b)
  {
    if b != [] { HexHasNoNewline(b[1..]); }
  }

  datatype Request = Request(method_: string, path: string, deviceID: string, ts: string, nonce: string, body: seq<byte>) {
    /** HTTP methods and header values hold no newline; a decoded path may. */
    predicate HeaderSafe() { '\n' !in method_ && '\n' !in deviceID && '\n' !in ts && '\n' !in nonce }
  }

  function Canonical(sha256: seq<byte> -> seq<byte>, r: Request): string {
    Join([r.method_, r.path, r.deviceID, r.ts, r.nonce, Hex(sha256(r.body))], "\n")
  }

  lemma CanonicalParts(sha256: seq<byte> -> seq<byte>, r: Request)
    ensures Canonical(sha256, r)
      == r.method_ + "\n" + (r.path + "\n" + r.deviceID + "\n" + r.ts + "\n" + r.nonce + "\n" + Hex(sha256(r.body)))
  {
    var h := Hex(sha256(r.body));
    assert Join([r.nonce, h], "\n") == r.nonce + "\n" + h;
    assert Join([r.ts, r.nonce, h], "\n") == r.ts + "\n" + (r.nonce + "\n" + h);
    assert Join([r.deviceID, r.ts, r.nonce, h], "\n") == r.deviceID + "\n" + (r.ts + "\n" + (r.nonce + "\n" + h));
    assert Join([r.path, r.deviceID, r.ts, r.nonce, h], "\n")
        == r.path + "\n" + (r.deviceID + "\n" + (r.ts + "\n" + (r.nonce + "\n" + h)));
  }

  /** One signed string stands for one request, up to the digest of its body, even if paths contain newlines. */
  lemma CanonicalIsInjective(sha256: seq<byte> -> seq<byte>, r: Request, q: Request)
    requires r.HeaderSafe() && q.HeaderSafe() && Canonical(sha256, r) == Canonical(sha256, q)
    ensures r == q.(body := r.body) && sha256(r.body) == sha256(q.body)
  {
    CanonicalParts(sha256, r);
    CanonicalParts(sha256, q);
    var h, k := Hex(sha256(r.body)), Hex(sha256(q.body));
    HexHasNoNewline(sha256(r.body));
    HexHasNoNewline(sha256(q.body));
    SplitLeft(r.method_, r.path + "\n" + r.deviceID + "\n" + r.ts + "\n" + r.nonce + "\n" + h,
              q.method_, q.path + "\n" + q.deviceID + "\n" + q.ts + "\n" + q.nonce + "\n" + k, '\n');
    SplitRight(r.path + "\n" + r.deviceID + "\n" + r.ts + "\n" + r.nonce, h, q.path + "\n" + q.deviceID + "\n" + q.ts + "\n" + q.nonce, k, '\n');
    SplitRight(r.path + "\n" + r.deviceID + "\n" + r.ts, r.nonce, q.path + "\n" + q.deviceID + "\n" + q.ts, q.nonce, '\n');
    SplitRight(r.path + "\n" + r.deviceID, r.ts, q.path + "\n" + q.deviceID, q.ts, '\n');
    SplitRight(r.path, r.deviceID, q.path, q.deviceID, '\n');
    HexInjective(sha256(r.body), sha256(q.body));
  }

  /** A newline in a second field would make the string ambiguous. */
  lemma NewlineInDeviceIDWouldCollide(sha256: seq<byte> -> seq<byte>, r: Request, x: string)
    ensures var a, b := r.(path := r.path + "\n" + x), r.(deviceID := x + "\n" + r.deviceID);
      a != b && Canonical(sha256, a) == Canonical(sha256, b)
  {
    var a, b := r.(path := r.path + "\n" + x), r.(deviceID := x + "\n" + r.deviceID);
    CanonicalParts(sha256, a);
    CanonicalParts(sha256, b);
    assert |a.path| != |b.path|;
    assert a.path + "\n" + a.deviceID == b.path + "\n" + b.deviceID;
  }
}

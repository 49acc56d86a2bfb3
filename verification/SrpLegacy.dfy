/**
 The client side of legacy AirPlay pairing: SRP-6a, section 2.6 of RFC 5054.

 The group and the hash are parameters. A device that follows the same section is described
 next to the client, and the two are proved to agree.
 */
module SrpLegacy {
  import opened Bytes
  import opened SrpEncoding
  import opened Wrappers

  /** Moduli are greater than one. */
  type Modulus = n: int | n > 1 witness 2

  type Digest = s: seq<byte> | |s| == 20 witness seq(20, _ => 0)

  datatype Suite = Suite(n: Modulus, g: nat, hash: seq<byte> -> Digest)

  datatype Error = PublicKeyIsZero | ProofMismatch

  // ----- Powers modulo n --------------------------------------------------------------------

  function Pow(b: nat, e: nat): nat {
    if e == 0 then 1 else b * Pow(b, e - 1)
  }

  function ModPow(b: nat, e: nat, n: Modulus): (r: nat)
    ensures r < n
  {
    Pow(b, e) % n
  }

  lemma RemainderUnique(n: int, q: int, r: int)
    requires n > 0 && 0 <= r < n
    ensures (n * q + r) % n == r
  {
    var x := n * q + r;
    var p, s := x / n, x % n;
    assert n * (q - p) == s - r;
    if q != p {
      MultipleIsFar(n, q - p);
    }
  }

  lemma MultipleIsFar(n: int, d: int)
    requires n > 0 && d != 0
    ensures n * d >= n || n * d <= -n
  {
    if d > 0 {
      Product(n, d);
    } else {
      Product(n, -d);
      assert n * d == -(n * -d);
    }
  }

  lemma {:induction false} Product(n: int, d: int)
    requires n > 0 && d > 0
    ensures n * d >= n
    decreases d
  {
    if d == 1 {
    } else {
      Product(n, d - 1);
      assert n * d == n * (d - 1) + n;
    }
  }

  lemma ModShift(n: int, q: int, x: int)
    requires n > 0
    ensures (n * q + x) % n == x % n
  {
    var p, r := x / n, x % n;
    assert n * q + x == n * (q + p) + r;
    RemainderUnique(n, q + p, r);
  }

  lemma MulMod(a: nat, b: nat, n: Modulus)
    ensures (a * b) % n == ((a % n) * (b % n)) % n
  {
    var p, q, r, s := a / n, b / n, a % n, b % n;
    assert a == n * p + r && b == n * q + s;
    assert a * b == n * (p * b + r * q) + r * s by {
      assert a * b == (n * p) * b + r * b;
      assert r * b == r * (n * q) + r * s;
      assert (n * p) * b == n * (p * b) && r * (n * q) == n * (r * q);
      assert n * (p * b + r * q) == n * (p * b) + n * (r * q);
    }
    ModShift(n, p * b + r * q, r * s);
  }

  lemma {:induction false} PowMod(b: nat, e: nat, n: Modulus)
    ensures Pow(b % n, e) % n == Pow(b, e) % n
    decreases e
  {
    if e == 0 {
    } else {
      PowMod(b, e - 1, n);
      MulMod(b, Pow(b, e - 1), n);
      MulMod(b % n, Pow(b % n, e - 1), n);
      ModTwice(b, n);
    }
  }

  lemma ModTwice(b: nat, n: Modulus)
    ensures (b % n) % n == b % n
  {
  }

  lemma {:induction false} PowAdd(b: nat, d: nat, e: nat)
    ensures Pow(b, d + e) == Pow(b, d) * Pow(b, e)
    decreases d
  {
    if d == 0 {
    } else {
      PowAdd(b, d - 1, e);
      assert b * (Pow(b, d - 1) * Pow(b, e)) == (b * Pow(b, d - 1)) * Pow(b, e);
    }
  }

  /** Powers are repeated multiplication. */
  lemma PowMeans(b: nat, d: nat, e: nat)
    ensures Pow(b, 0) == 1 && Pow(b, 1) == b && Pow(b, d + e) == Pow(b, d) * Pow(b, e)
  {
    PowAdd(b, d, e);
  }

  lemma {:induction false} PowPow(b: nat, d: nat, e: nat)
    ensures Pow(b, d * e) == Pow(Pow(b, d), e)
    decreases e
  {
    if e == 0 {
    } else {
      PowPow(b, d, e - 1);
      PowAdd(b, d, d * (e - 1));
      assert d * e == d + d * (e - 1);
    }
  }

  // ----- The two premaster secrets ------------------------------------------------------------

  /** The client's base, reduced so that it never goes negative. */
  function ClientBase(s: Suite, k: nat, v: nat, peer: nat): nat {
    (peer + s.n - (k * v) % s.n) % s.n
  }

  function ClientSecret(s: Suite, k: nat, x: nat, u: nat, a: nat, peer: nat): nat {
    ModPow(ClientBase(s, k, ModPow(s.g, x, s.n), peer), a + u * x, s.n)
  }

  /** Section 2.6 of RFC 5054, from the device's verifier `v` and private `b`. */
  function DevicePublic(s: Suite, k: nat, v: nat, b: nat): (r: nat)
    ensures r < s.n
  {
    (k * v + ModPow(s.g, b, s.n)) % s.n
  }

  function DeviceSecret(s: Suite, peer: nat, v: nat, u: nat, b: nat): nat {
    ModPow(peer * Pow(v, u), b, s.n)
  }

  /** Taking `k * v` off again leaves `g^b`. */
  lemma BaseIsPower(s: Suite, k: nat, v: nat, b: nat)
    ensures ClientBase(s, k, v, DevicePublic(s, k, v, b)) == ModPow(s.g, b, s.n)
  {
    var n, w, kv := s.n, ModPow(s.g, b, s.n), k * v;
    var p, q := kv / n, (kv + w) / n;
    var peer := (kv + w) % n;
    assert kv == n * p + kv % n && kv + w == n * q + peer;
    assert peer + n - kv % n == n * (p - q + 1) + w by {
      assert n * (p - q + 1) == n * p - n * q + n;
    }
    ModShift(n, p - q + 1, w);
    ModTwice(Pow(s.g, b), n);
  }

  lemma Regroup(a: nat, x: nat, u: nat, b: nat)
    ensures b * (a + u * x) == (a + x * u) * b
  {
  }

  lemma ClientPower(s: Suite, x: nat, u: nat, a: nat, b: nat)
    ensures ModPow(ModPow(s.g, b, s.n), a + u * x, s.n) == ModPow(s.g, b * (a + u * x), s.n)
  {
    PowMod(Pow(s.g, b), a + u * x, s.n);
    PowPow(s.g, b, a + u * x);
  }

  lemma DevicePower(s: Suite, x: nat, u: nat, a: nat, b: nat)
    ensures DeviceSecret(s, ModPow(s.g, a, s.n), ModPow(s.g, x, s.n), u, b) == ModPow(s.g, (a + x * u) * b, s.n)
  {
    hide Pow;
    var n, A, v := s.n, ModPow(s.g, a, s.n), ModPow(s.g, x, s.n);
    assert (A * Pow(v, u)) % n == Pow(s.g, a + x * u) % n by {
      MulMod(A, Pow(v, u), n);
      ModTwice(Pow(s.g, a), n);
      PowMod(Pow(s.g, x), u, n);
      PowPow(s.g, x, u);
      MulMod(Pow(s.g, a), Pow(s.g, x * u), n);
      PowAdd(s.g, a, x * u);
    }
    PowMod(A * Pow(v, u), b, n);
    PowMod(Pow(s.g, a + x * u), b, n);
    PowPow(s.g, a + x * u, b);
  }

  /**
   For every group and all secrets: the client's base is `g^b` modulo `n`, and its premaster
   secret is the device's.
   */
  lemma SecretsAgree(s: Suite, k: nat, x: nat, u: nat, a: nat, b: nat)
    ensures var v := ModPow(s.g, x, s.n);
            var peer := DevicePublic(s, k, v, b);
            && ClientBase(s, k, v, peer) == ModPow(s.g, b, s.n)
            && ClientSecret(s, k, x, u, a, peer) == DeviceSecret(s, ModPow(s.g, a, s.n), v, u, b)
  {
    hide ModPow, ClientBase, DevicePublic, DeviceSecret, Pow;
    BaseIsPower(s, k, ModPow(s.g, x, s.n), b);
    ClientPower(s, x, u, a, b);
    DevicePower(s, x, u, a, b);
    Regroup(a, x, u, b);
  }

  // ----- Keys and proofs --------------------------------------------------------------------------

  function HashInt(s: Suite, parts: seq<byte>): nat {
    FromBe(s.hash(parts))
  }

  /** The 40-byte key: two digests of the secret, with counters 0 and 1 behind it. */
  function DoubledKey(s: Suite, secret: seq<byte>): (key: seq<byte>)
    ensures |key| == 40
  {
    s.hash(secret + [0, 0, 0, 0]) + s.hash(secret + [0, 0, 0, 1])
  }

  function Xor(a: seq<byte>, b: seq<byte>): (r: seq<byte>)
    requires |a| == |b|
    ensures |r| == |a|
  {
    seq(|a|, i requires 0 <= i < |a| => ((a[i] as bv8) ^ (b[i] as bv8)) as byte)
  }

  /** `k = H(N | PAD(g))`. */
  function Multiplier(s: Suite): nat {
    HashInt(s, ToBe(s.n) + Pad(s.n, s.g))
  }

  /** `x = H(salt | H(user | ":" | password))`. */
  function PasswordHash(s: Suite, username: seq<byte>, password: seq<byte>, salt: seq<byte>): nat {
    HashInt(s, salt + s.hash(username + [0x3A] + password))
  }

  /** `u = H(PAD(A) | PAD(B))`. */
  function Scrambler(s: Suite, client: nat, device: nat): nat {
    HashInt(s, Pad(s.n, client) + Pad(s.n, device))
  }

  function ClientProof(s: Suite, username: seq<byte>, salt: seq<byte>, client: nat, device: nat, key: seq<byte>): Digest {
    var groups := IntToBytes(FromBe(Xor(s.hash(ToBe(s.n)), s.hash(IntToBytes(s.g)))));
    var name := IntToBytes(HashInt(s, username));
    s.hash(groups + name + salt + IntToBytes(client) + IntToBytes(device) + key)
  }

  function DeviceProof(s: Suite, client: nat, proof: Digest, key: seq<byte>): Digest {
    s.hash(IntToBytes(client) + proof + key)
  }

  datatype Session = Session(key: seq<byte>, proof: Digest, expected: Digest)

  /** What a challenge from the device comes to. */
  function Challenged(s: Suite, username: seq<byte>, a: nat, password: seq<byte>, salt: seq<byte>, wire: seq<byte>)
    : Result<Session, Error>
  {
    var device := FromBe(wire) % s.n;
    if device == 0 then Err(PublicKeyIsZero)
    else
      var client := ModPow(s.g, a, s.n);
      var x := PasswordHash(s, username, password, salt);
      var secret := ClientSecret(s, Multiplier(s), x, Scrambler(s, client, device), a, device);
      var key := DoubledKey(s, IntToBytes(secret));
      var proof := ClientProof(s, username, salt, client, device, key);
      Ok(Session(key, proof, DeviceProof(s, client, proof, key)))
  }

  // ----- The device --------------------------------------------------------------------------------

  /** The digits of an integer, as many as it has. */
  function Digits(n: nat): seq<byte> {
    BigEndian(n, Width(n))
  }

  /** The digits of an integer, as many as the modulus has, or more if it has more. */
  function WideDigits(s: Suite, n: nat): seq<byte> {
    BigEndian(n, if Width(n) < Width(s.n) then Width(s.n) else Width(n))
  }

  /** A colon. */
  const COLON: byte := 58

  /** What an account's password comes to: `H(salt | H(user ":" password))`. */
  function Account(s: Suite, username: seq<byte>, password: seq<byte>, salt: seq<byte>): nat {
    FromBe(s.hash(salt + s.hash(username + [COLON] + password)))
  }

  /**
   An honest device, written from section 2.6 of RFC 5054 and section 3 of RFC 2945 with the two
   differences of the legacy profile: the key is two digests long, and integers are hashed in
   their shortest form wherever they are not padded. It shares nothing with the client below but
   the hash and the powers.
   */
  datatype Device = Device(username: seq<byte>, salt: seq<byte>, verifier: nat, b: nat) {
    /** `B = k * v + g^b` with `k = H(N | PAD(g))`. */
    function Public(s: Suite): nat {
      (FromBe(s.hash(Digits(s.n) + WideDigits(s, s.g))) * verifier + Pow(s.g, b) % s.n) % s.n
    }

    /** `S = (A * v^u)^b` with `u = H(PAD(A) | PAD(B))`. */
    function Secret(s: Suite, client: nat): nat {
      var u := FromBe(s.hash(WideDigits(s, client) + WideDigits(s, Public(s))));
      Pow(client * Pow(verifier, u), b) % s.n
    }

    /** `K = H(S | 0) | H(S | 1)`, the counters being four bytes wide. */
    function Key(s: Suite, client: nat): seq<byte> {
      var secret := Digits(Secret(s, client));
      s.hash(secret + [0, 0, 0, 0]) + s.hash(secret + [0, 0, 0, 1])
    }

    /** The proof it wants from the client: `H(H(N) xor H(g) | H(user) | salt | A | B | K)`. */
    function Wanted(s: Suite, client: nat): Digest {
      var modulus, generator := s.hash(Digits(s.n)), s.hash(Digits(s.g));
      var both: seq<byte> := seq(20, i requires 0 <= i < 20 => ((modulus[i] as bv8) ^ (generator[i] as bv8)) as byte);
      s.hash(Digits(FromBe(both)) + Digits(FromBe(s.hash(username))) + salt + Digits(client) + Digits(Public(s)) + Key(s, client))
    }

    /** Its own proof: `H(A | M | K)`. */
    function Proof(s: Suite, client: nat): Digest {
      s.hash(Digits(client) + Wanted(s, client) + Key(s, client))
    }
  }

  function Enrolled(s: Suite, username: seq<byte>, password: seq<byte>, salt: seq<byte>, b: nat): Device {
    Device(username, salt, Pow(s.g, Account(s, username, password, salt)) % s.n, b)
  }

  lemma SameMultiplier(s: Suite)
    ensures Multiplier(s) == FromBe(s.hash(Digits(s.n) + WideDigits(s, s.g)))
  {
    hide FromBe, BigEndian, ToBe, Pad;
    FormsAreDigits(s.n, s.n);
    FormsAreDigits(s.n, s.g);
  }

  lemma SameScrambler(s: Suite, client: nat, device: nat)
    ensures Scrambler(s, client, device) == FromBe(s.hash(WideDigits(s, client) + WideDigits(s, device)))
  {
    hide FromBe, BigEndian, Pad;
    FormsAreDigits(s.n, client);
    FormsAreDigits(s.n, device);
  }

  lemma SameAccount(s: Suite, username: seq<byte>, password: seq<byte>, salt: seq<byte>)
    ensures PasswordHash(s, username, password, salt) == Account(s, username, password, salt)
  {
    hide FromBe;
  }

  lemma SameKey(s: Suite, secret: nat)
    ensures DoubledKey(s, IntToBytes(secret)) == s.hash(Digits(secret) + [0, 0, 0, 0]) + s.hash(Digits(secret) + [0, 0, 0, 1])
  {
    hide FromBe, BigEndian, IntToBytes;
    FormsAreDigits(s.n, secret);
  }

  lemma SameProofs(s: Suite, d: Device, client: nat)
    ensures ClientProof(s, d.username, d.salt, client, d.Public(s), d.Key(s, client)) == d.Wanted(s, client)
    ensures DeviceProof(s, client, d.Wanted(s, client), d.Key(s, client)) == d.Proof(s, client)
  {
    hide FromBe, BigEndian, IntToBytes, ToBe, Device.Public, Device.Key;
    var modulus, generator := s.hash(Digits(s.n)), s.hash(Digits(s.g));
    var both: seq<byte> := seq(20, i requires 0 <= i < 20 => ((modulus[i] as bv8) ^ (generator[i] as bv8)) as byte);
    FormsAreDigits(s.n, s.n);
    FormsAreDigits(s.n, s.g);
    assert Xor(s.hash(ToBe(s.n)), s.hash(IntToBytes(s.g))) == both;
    FormsAreDigits(s.n, FromBe(both));
    FormsAreDigits(s.n, FromBe(s.hash(d.username)));
    FormsAreDigits(s.n, client);
    FormsAreDigits(s.n, d.Public(s));
  }

  /**
   A client that knows the password agrees with an honest device on key and both proofs, however
   the device writes its public value: any number of leading zeros, any multiple of `n` added.
   It refuses only if that value happens to be zero.
   */
  lemma HonestDeviceAgrees(s: Suite, username: seq<byte>, password: seq<byte>, salt: seq<byte>, a: nat, b: nat, wire: seq<byte>)
    ensures var device := Enrolled(s, username, password, salt, b);
            var client := Pow(s.g, a) % s.n;
            FromBe(wire) % s.n == device.Public(s) ==>
              Challenged(s, username, a, password, salt, wire)
              == if device.Public(s) == 0 then Err(PublicKeyIsZero)
                 else Ok(Session(device.Key(s, client), device.Wanted(s, client), device.Proof(s, client)))
  {
    var device := Enrolled(s, username, password, salt, b);
    var client := Pow(s.g, a) % s.n;
    if FromBe(wire) % s.n == device.Public(s) && device.Public(s) != 0 {
      SameSession(s, username, password, salt, a, b);
      hide Pow, ClientSecret, Multiplier, Scrambler, PasswordHash, FromBe, DoubledKey, ClientProof, DeviceProof;
      hide Device.Public, Device.Key, Device.Wanted, Device.Proof;
    }
  }

  /** The client's session from the device's public value is the device's. */
  lemma SameSession(s: Suite, username: seq<byte>, password: seq<byte>, salt: seq<byte>, a: nat, b: nat)
    ensures var device := Enrolled(s, username, password, salt, b);
            var client := ModPow(s.g, a, s.n);
            var x := PasswordHash(s, username, password, salt);
            var peer := device.Public(s);
            var key := DoubledKey(s, IntToBytes(ClientSecret(s, Multiplier(s), x, Scrambler(s, client, peer), a, peer)));
            && key == device.Key(s, client)
            && ClientProof(s, username, salt, client, peer, key) == device.Wanted(s, client)
            && DeviceProof(s, client, device.Wanted(s, client), key) == device.Proof(s, client)
  {
    hide FromBe, BigEndian, IntToBytes, DoubledKey, ClientSecret, Multiplier, Scrambler, PasswordHash, ClientProof, DeviceProof;
    hide Digits, WideDigits, Pow, Account, Device.Wanted, Device.Proof;
    var device := Enrolled(s, username, password, salt, b);
    var client := ModPow(s.g, a, s.n);
    SameAccount(s, username, password, salt);
    SameMultiplier(s);
    SameScrambler(s, client, device.Public(s));
    SecretsAgree(s, Multiplier(s), PasswordHash(s, username, password, salt), Scrambler(s, client, device.Public(s)), a, b);
    assert device.Public(s) == DevicePublic(s, Multiplier(s), device.verifier, b);
    assert device.Secret(s, client) == DeviceSecret(s, client, device.verifier, Scrambler(s, client, device.Public(s)), b);
    SameKey(s, device.Secret(s, client));
    SameProofs(s, device, client);
  }

  /** Only the residue of the device's public value matters, so leading zero bytes change nothing. */
  lemma LeadingZerosIgnored(s: Suite, username: seq<byte>, a: nat, password: seq<byte>, salt: seq<byte>, wire: seq<byte>, n: nat)
    ensures Challenged(s, username, a, password, salt, ZeroBytes(n) + wire) == Challenged(s, username, a, password, salt, wire)
  {
    hide ClientSecret, Multiplier, Scrambler, PasswordHash, DoubledKey, ClientProof, DeviceProof, FromBe, ModPow;
    PaddedValue(n, wire);
  }

  // ----- The client object -------------------------------------------------------------------------

  class LegacySrpClient {
    const suite: Suite
    const username: seq<byte>
    const secret: nat
    const public: nat
    var sessionKey: Option<seq<byte>>
    var expectedProof: Option<Digest>

    ghost predicate Valid() {
      public == ModPow(suite.g, secret, suite.n)
    }

    constructor (suite: Suite, username: seq<byte>, ephemeral: seq<byte>)
      ensures Valid() && this.suite == suite && this.username == username && secret == FromBe(ephemeral)
      ensures sessionKey == None && expectedProof == None
    {
      this.suite, this.username := suite, username;
      secret := FromBe(ephemeral);
      public := ModPow(suite.g, FromBe(ephemeral), suite.n);
      sessionKey, expectedProof := None, None;
    }

    /** `A` as it is sent: its shortest form, which denotes it. */
    method PublicKey() returns (r: seq<byte>)
      requires Valid()
      ensures FromBe(r) == ModPow(suite.g, secret, suite.n) && Shortest(r)
    {
      IntToBytesIsToBe(public);
      return IntToBytes(public);
    }

    /** Take the device's salt and public value; on failure nothing is changed. */
    method ProcessChallenge(password: seq<byte>, salt: seq<byte>, wire: seq<byte>) returns (r: Result<Digest, Error>)
      requires Valid()
      modifies this
      ensures match Challenged(suite, username, secret, password, salt, wire)
              case Err(e) => r == Err(e) && sessionKey == old(sessionKey) && expectedProof == old(expectedProof)
              case Ok(session) => r == Ok(session.proof) && sessionKey == Some(session.key) && expectedProof == Some(session.expected)
    {
      hide ModPow, FromBe, IntToBytes, DoubledKey, Multiplier, PasswordHash, Scrambler, ClientProof, DeviceProof;
      var device := FromBe(wire) % suite.n;
      if device == 0 {
        return Err(PublicKeyIsZero);
      }
      var multiplier := Multiplier(suite);
      var passwordHash := PasswordHash(suite, username, password, salt);
      var scrambler := Scrambler(suite, public, device);
      var verifier := ModPow(suite.g, passwordHash, suite.n);
      var base := (device + suite.n - (multiplier * verifier) % suite.n) % suite.n;
      var premaster := ModPow(base, secret + scrambler * passwordHash, suite.n);
      var key := DoubledKey(suite, IntToBytes(premaster));
      var proof := ClientProof(suite, username, salt, public, device, key);
      expectedProof := Some(DeviceProof(suite, public, proof, key));
      sessionKey := Some(key);
      return Ok(proof);
    }

    /** Accepts exactly the proof expected, and none before a challenge was processed. */
    method VerifyDeviceProof(proof: seq<byte>) returns (r: Result<(), Error>)
      ensures r == if expectedProof.Some? && proof == expectedProof.value then Ok(()) else Err(ProofMismatch)
    {
      if expectedProof.None? {
        return Err(ProofMismatch);
      }
      return if expectedProof.value == proof then Ok(()) else Err(ProofMismatch);
    }
  }
}

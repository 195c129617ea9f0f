/**
 * Both sides of a key agreement derive the same secret: the Diffie-Hellman step of the
 * handshake (mtproto/auth.go) and the password proof of section 2.6 of RFC 5054 in
 * Telegram's variant (mtproto/password.go).
 */
module KeyAgreement {
  import opened Arithmetic
  import opened Bytes
  import opened Primitives
  import opened Wrappers

  /** big.Int.Exp for a non-negative base. */
  function ModExp(b: nat, e: nat, m: nat): (r: nat)
    requires m > 0
    ensures r < m
  {
    Pow(b, e) % m
  }

  /** Exponents commute: raising to d then e is raising to e then d, with reductions anywhere. */
  lemma ModExpCommutes(g: nat, d: nat, e: nat, m: nat)
    requires m > 0
    ensures ModExp(ModExp(g, d, m), e, m) == ModExp(ModExp(g, e, m), d, m) == Pow(g, d * e) % m
  {
    ModPow(Pow(g, d), e, m);
    ModPow(Pow(g, e), d, m);
    PowMul(g, d, e);
    PowMul(g, e, d);
    assert d * e == e * d;
  }

  // Diffie-Hellman, client side.

  datatype ClientShare = ClientShare(authKey: seq<byte>, gb: seq<byte>)

  /** The arithmetic of sendSetClientDHParams; b comes from 256 random bytes. */
  function ClientDH(g: nat, dhPrime: seq<byte>, ga: seq<byte>, b: seq<byte>): ClientShare
    requires FromBE(dhPrime) > 0
  {
    var p := FromBE(dhPrime);
    ClientShare(
      PadBig(ModExp(FromBE(ga), FromBE(b), p), |dhPrime|),
      PadBig(ModExp(g, FromBE(b), p), |dhPrime|))
  }

  /**
   * The server, holding the exponent a behind g_a, computes from the client's g_b the very
   * number the client encoded as its auth key; both encodings are exactly as long as the
   * prime and the auth key is the only string of that length with that value.
   */
  lemma DHAgreement(g: nat, dhPrime: seq<byte>, a: nat, ga: seq<byte>, b: seq<byte>)
    requires FromBE(dhPrime) > 0
    requires FromBE(ga) == ModExp(g, a, FromBE(dhPrime))
    ensures var share := ClientDH(g, dhPrime, ga, b);
            && |share.authKey| == |share.gb| == |dhPrime|
            && FromBE(share.authKey) == ModExp(FromBE(share.gb), a, FromBE(dhPrime))
            && share.authKey == PadBig(ModExp(FromBE(share.gb), a, FromBE(dhPrime)), |dhPrime|)
  {
    var p := FromBE(dhPrime);
    ModExpCommutes(g, a, FromBE(b), p);
    PadBigRoundTrip(ModExp(FromBE(ga), FromBE(b), p), |dhPrime|);
    PadBigRoundTrip(ModExp(g, FromBE(b), p), |dhPrime|);
  }

  // Secure remote password.

  const KDF_ALGO: u32 := 0x3a912d4a

  datatype AccountPassword = AccountPassword(
    hasPassword: bool,
    constructorId: u32,
    salt1: seq<byte>,
    salt2: seq<byte>,
    g: i32,
    p: seq<byte>,
    srpB: seq<byte>)

  datatype SRPProof = SRPProof(A: seq<byte>, M1: seq<byte>)

  /** The proof value M1 over the common parameters, both public numbers and the secret. */
  function M1(sha256: Hash, params: AccountPassword, ga: nat, gb: nat, secret: nat): seq<byte>
    requires params.g >= 0
  {
    var size := |params.p|;
    var pBytes, gBytes := PadBig(FromBE(params.p), size), PadBig(params.g, size);
    sha256(Xor(sha256(pBytes), sha256(gBytes))
           + sha256(params.salt1) + sha256(params.salt2)
           + PadBig(ga, size) + PadBig(gb, size)
           + sha256(PadBig(secret, size)))
  }

  /** The multiplier k and the scrambler u, from hashes of padded numbers. */
  function Multiplier(sha256: Hash, p: nat, g: nat, size: nat): nat {
    FromBE(sha256(PadBig(p, size) + PadBig(g, size)))
  }

  function Scrambler(sha256: Hash, ga: nat, gb: nat, size: nat): nat {
    FromBE(sha256(PadBig(ga, size) + PadBig(gb, size)))
  }

  /**
   * BuildSRPProof, for the private key x hashed from the password and the random exponent a;
   * the source's error returns are None.
   */
  function BuildSRPProof(sha256: Hash, params: AccountPassword, x: nat, a: nat): Option<SRPProof> {
    if !params.hasPassword || params.constructorId != KDF_ALGO then None
    else if |params.p| == 0 || |params.srpB| == 0 then None
    else if params.g < 2 || params.g > 7 then None
    else
      var p, g, gb := FromBE(params.p), params.g, FromBE(params.srpB);
      if p <= 0 || gb <= 0 || gb >= p then None
      else
        var size := |params.p|;
        var k := Multiplier(sha256, p, g, size);
        var v := ModExp(g, x, p);
        var ga := ModExp(g, a, p);
        if ga <= 0 then None
        else
          var u := Scrambler(sha256, ga, gb, size);
          if u == 0 then None
          else
            var t := Unmask(gb, k, v, p);
            if t <= 0 then None
            else
              var s := ModExp(t, MulNat(u, x) + a, p);
              Some(SRPProof(PadBig(ga, size), M1(sha256, params, ga, gb, s)))
  }

  /** The modular subtraction of k*v, which the source reduces before subtracting. */
  function Unmask(gb: nat, k: nat, v: nat, p: nat): nat
    requires p > 0
  {
    var kv := (k * v) % p;
    (gb - kv) % p
  }

  function MulNat(a: nat, b: nat): (r: nat)
    ensures r == a * b
  {
    MulMonotone(a, 0, b);
    a * b
  }

  // The server's side, from the bytes it holds and receives.

  function ServerMultiplier(sha256: Hash, pBytes: seq<byte>, g: nat): nat {
    FromBE(sha256(pBytes + PadBig(g, |pBytes|)))
  }

  function ServerScrambler(sha256: Hash, A: seq<byte>, B: nat, size: nat): nat {
    FromBE(sha256(A + PadBig(B, size)))
  }

  /** What an honest server sends as B: it stores the verifier v and draws the exponent b. */
  function ServerPublic(k: nat, v: nat, g: nat, b: nat, p: nat): nat
    requires p > 0
  {
    (k * v + Pow(g, b)) % p
  }

  lemma UnmaskServerPublic(k: nat, v: nat, g: nat, b: nat, p: nat)
    requires p > 0
    ensures Unmask(ServerPublic(k, v, g, b, p), k, v, p) == ModExp(g, b, p)
  {
    ModSubtract(k * v, Pow(g, b), p);
  }

  /** The secret a server derives from the client's A with its own v and b. */
  function ServerSecret(p: nat, A: nat, v: nat, u: nat, b: nat): nat
    requires p > 0
  {
    (Pow(A * Pow(v, u), b)) % p
  }

  /**
   * The bytes a server hashes to check a proof, position by position: a hash that masked with the
   * one of g gives the one of p, the hashes of both salts, the A it received, its own B in the width
   * of p, and the hash of the secret in that width.
   */
  ghost predicate Transcript(sha256: Hash, params: AccountPassword, A: seq<byte>, secret: nat, t: seq<byte>)
    requires params.g >= 0
  {
    var size := |params.p|;
    && |t| == 128 + 2 * size && |A| == size
    && Xor(t[..32], sha256(PadBig(params.g, size))) == sha256(params.p)
    && t[32..64] == sha256(params.salt1) && t[64..96] == sha256(params.salt2)
    && t[96..96 + size] == A
    && t[96 + size..96 + 2 * size] == PadBig(FromBE(params.srpB), size)
    && t[96 + 2 * size..] == sha256(PadBig(secret, size))
  }

  /** There is only one such string. */
  lemma TranscriptUnique(sha256: Hash, params: AccountPassword, A: seq<byte>, secret: nat, t: seq<byte>, u: seq<byte>)
    requires params.g >= 0 && Transcript(sha256, params, A, secret, t) && Transcript(sha256, params, A, secret, u)
    ensures t == u
  {
    hide PadBig, FromBE, Xor;
    var mask, size := sha256(PadBig(params.g, |params.p|)), |params.p|;
    XorCancel(t[..32], mask);
    XorCancel(u[..32], mask);
    SixParts(t, size);
    SixParts(u, size);
  }

  lemma SixParts(t: seq<byte>, size: nat)
    requires |t| == 128 + 2 * size
    ensures t == t[..32] + t[32..64] + t[64..96] + t[96..96 + size] + t[96 + size..96 + 2 * size] + t[96 + 2 * size..]
  {
  }

  /** A minimal or zero-padded numeral is what its value is encoded as. */
  lemma PadOwnValue(s: seq<byte>)
    ensures PadBig(FromBE(s), |s|) == s
  {
    PadBigRoundTrip(FromBE(s), |s|);
    FromBEInjective(PadBig(FromBE(s), |s|), s);
  }

  lemma Positions(a: seq<byte>, b: seq<byte>, c: seq<byte>, d: seq<byte>, e: seq<byte>, f: seq<byte>)
    requires |a| == |b| == |c| == |f| == 32 && |d| == |e|
    ensures var t, size := a + b + c + d + e + f, |d|;
            && |t| == 128 + 2 * size && t[..32] == a && t[32..64] == b && t[64..96] == c
            && t[96..96 + size] == d && t[96 + size..96 + 2 * size] == e && t[96 + 2 * size..] == f
  {
  }

  /** The client hashes exactly the string the server does. */
  lemma ClientTranscript(sha256: Hash, params: AccountPassword, ga: nat, secret: nat)
    requires params.g >= 0 && ga < FromBE(params.p) && FromBE(params.srpB) < FromBE(params.p)
    ensures exists t :: Transcript(sha256, params, PadBig(ga, |params.p|), secret, t)
                        && M1(sha256, params, ga, FromBE(params.srpB), secret) == sha256(t)
  {
    hide PadBig, FromBE, Xor;
    var size, gb := |params.p|, FromBE(params.srpB);
    var A, B := PadBig(ga, size), PadBig(gb, size);
    PadBigRoundTrip(ga, size);
    PadBigRoundTrip(gb, size);
    PadOwnValue(params.p);
    var hp, hg := sha256(params.p), sha256(PadBig(params.g, size));
    XorCancel(hp, hg);
    var t := Xor(hp, hg) + sha256(params.salt1) + sha256(params.salt2) + A + B + sha256(PadBig(secret, size));
    assert M1(sha256, params, ga, gb, secret) == sha256(t);
    Positions(Xor(hp, hg), sha256(params.salt1), sha256(params.salt2), A, B, sha256(PadBig(secret, size)));
  }

  /** The client's multiplier and scrambler are the server's. */
  lemma SameHashes(sha256: Hash, params: AccountPassword, ga: nat, g: nat)
    ensures var p, gb, size := FromBE(params.p), FromBE(params.srpB), |params.p|;
            && Multiplier(sha256, p, g, size) == ServerMultiplier(sha256, params.p, g)
            && Scrambler(sha256, ga, gb, size) == ServerScrambler(sha256, PadBig(ga, size), gb, size)
  {
    PadOwnValue(params.p);
  }

  /** The algebra: (g^b)^(a + u*x) and (g^a * (g^x)^u)^b are the same power of g. */
  lemma SecretPowers(g: nat, a: nat, b: nat, u: nat, x: nat)
    ensures Pow(Pow(g, b), MulNat(u, x) + a) == Pow(Pow(g, a) * Pow(Pow(g, x), u), b)
  {
    var e := MulNat(u, x);
    PowMul(g, x, u);
    assert x * u == e;
    PowAdd(g, a, e);
    PowMul(g, a + e, b);
    PowMul(g, b, e + a);
    assert (a + e) * b == b * (e + a);
  }

  /** With reductions modulo p wherever either side makes them, the two secrets agree. */
  lemma SecretsAgree(p: nat, g: nat, a: nat, b: nat, u: nat, x: nat)
    requires p > 0
    ensures ModExp(ModExp(g, b, p), MulNat(u, x) + a, p)
            == ServerSecret(p, ModExp(g, a, p), ModExp(g, x, p), u, b)
  {
    var A, v := Pow(g, a), Pow(g, x);
    PowNonNegative(v % p, u);
    calc {
      Pow((A % p) * Pow(v % p, u), b) % p;
      { ModPow((A % p) * Pow(v % p, u), b, p); }
      Pow(((A % p) * Pow(v % p, u)) % p, b) % p;
      { ModMul(A, Pow(v % p, u), p); ModMulBoth(A, Pow(v % p, u), p);
        ModPow(v, u, p); ModMulBoth(A, Pow(v, u), p); }
      Pow((A * Pow(v, u)) % p, b) % p;
      { ModPow(A * Pow(v, u), b, p); }
      Pow(A * Pow(v, u), b) % p;
      { SecretPowers(g, a, b, u, x); }
      Pow(Pow(g, b), MulNat(u, x) + a) % p;
      { ModPow(Pow(g, b), MulNat(u, x) + a, p); }
      Pow(Pow(g, b) % p, MulNat(u, x) + a) % p;
    }
  }

  /** The same with t recovered by unmasking the server's B. */
  lemma UnmaskedSecretsAgree(p: nat, g: nat, a: nat, b: nat, u: nat, x: nat, k: nat, v: nat, gb: nat, t: nat)
    requires p > 0 && v == ModExp(g, x, p)
    requires gb == ServerPublic(k, v, g, b, p) && t == Unmask(gb, k, v, p)
    ensures ModExp(t, MulNat(u, x) + a, p) == ServerSecret(p, ModExp(g, a, p), v, u, b)
  {
    UnmaskServerPublic(k, v, g, b, p);
    SecretsAgree(p, g, a, b, u, x);
  }

  /** An exchange with a server that stores the verifier of x and sends the B it should. */
  ghost predicate HonestExchange(sha256: Hash, params: AccountPassword, x: nat, b: nat) {
    && params.hasPassword && params.constructorId == KDF_ALGO
    && 2 <= params.g <= 7
    && FromBE(params.p) > 1
    && var p := FromBE(params.p);
       var k := ServerMultiplier(sha256, params.p, params.g);
       FromBE(params.srpB) == ServerPublic(k, ModExp(params.g, x, p), params.g, b, p)
  }

  /** Every modulus above one, generator and pair of secrets has such an exchange: the server sends its own B. */
  lemma HonestServerAnswers(sha256: Hash, params: AccountPassword, x: nat, b: nat)
    requires params.hasPassword && params.constructorId == KDF_ALGO && 2 <= params.g <= 7 && FromBE(params.p) > 1
    ensures var p, k := FromBE(params.p), ServerMultiplier(sha256, params.p, params.g);
            var B := ServerPublic(k, ModExp(params.g, x, p), params.g, b, p);
            HonestExchange(sha256, params.(srpB := PadBig(B, |params.p|)), x, b)
  {
    hide ModExp, ServerMultiplier, FromBE, PadBig;
    var p, k := FromBE(params.p), ServerMultiplier(sha256, params.p, params.g);
    PadBigRoundTrip(ServerPublic(k, ModExp(params.g, x, p), params.g, b, p), |params.p|);
  }

  /** Against an honest server the client accepts exactly when no number of the exchange is degenerate. */
  lemma SRPAcceptance(sha256: Hash, params: AccountPassword, x: nat, a: nat, b: nat)
    requires HonestExchange(sha256, params, x, b)
    ensures var p, gb := FromBE(params.p), FromBE(params.srpB);
            var ga := ModExp(params.g, a, p);
            BuildSRPProof(sha256, params, x, a).Some? <==>
              && gb != 0 && ga != 0 && ModExp(params.g, b, p) != 0
              && ServerScrambler(sha256, PadBig(ga, |params.p|), gb, |params.p|) != 0
  {
    var p, g := FromBE(params.p), params.g;
    SameHashes(sha256, params, ModExp(g, a, p), g);
    hide Multiplier, Scrambler, ServerMultiplier, ServerScrambler, ModExp, M1, PadBig, Unmask, ServerPublic, Pow;
    UnmaskServerPublic(Multiplier(sha256, p, g, |params.p|), ModExp(g, x, p), g, b, p);
    assert FromBE(params.srpB) != 0 ==> |params.srpB| > 0;
  }

  /** The proof the client sends, in terms of the secret it derived. */
  function ClientSecret(sha256: Hash, params: AccountPassword, x: nat, a: nat): nat
    requires FromBE(params.p) > 0 && params.g >= 0
  {
    var p, g, size, gb := FromBE(params.p), params.g, |params.p|, FromBE(params.srpB);
    var t := Unmask(gb, Multiplier(sha256, p, g, size), ModExp(g, x, p), p);
    ModExp(t, MulNat(Scrambler(sha256, ModExp(g, a, p), gb, size), x) + a, p)
  }

  lemma ClientM1Value(sha256: Hash, params: AccountPassword, x: nat, a: nat)
    requires BuildSRPProof(sha256, params, x, a).Some?
    ensures FromBE(params.srpB) < FromBE(params.p) && params.g >= 0
    ensures var ga := ModExp(params.g, a, FromBE(params.p));
            BuildSRPProof(sha256, params, x, a).value
            == SRPProof(PadBig(ga, |params.p|),
                        M1(sha256, params, ga, FromBE(params.srpB), ClientSecret(sha256, params, x, a)))
  {
    hide ModExp, PadBig, M1, Multiplier, Scrambler, Unmask, MulNat, FromBE;
  }

  lemma ClientSecretAgrees(sha256: Hash, params: AccountPassword, x: nat, a: nat, b: nat)
    requires HonestExchange(sha256, params, x, b)
    ensures var p, gb := FromBE(params.p), FromBE(params.srpB);
            var ga := ModExp(params.g, a, p);
            ClientSecret(sha256, params, x, a)
            == ServerSecret(p, ga, ModExp(params.g, x, p), Scrambler(sha256, ga, gb, |params.p|), b)
  {
    hide ModExp, Unmask, Multiplier, Scrambler, ServerSecret, ServerPublic, MulNat, ServerMultiplier, ServerScrambler,
         FromBE, PadBig;
    var p, g, size, gb := FromBE(params.p), params.g, |params.p|, FromBE(params.srpB);
    SameHashes(sha256, params, 0, g);
    var v, k := ModExp(g, x, p), Multiplier(sha256, p, g, size);
    UnmaskedSecretsAgree(p, g, a, b, Scrambler(sha256, ModExp(g, a, p), gb, size), x, k, v, gb, Unmask(gb, k, v, p));
  }

  /**
   * Whatever both sides draw, an accepted proof carries A = g^a mod p in exactly as many bytes
   * as p, and as M1 the hash of the transcript that the server puts together from these bytes, its
   * own B and the secret it derives with its verifier and exponent.
   */
  lemma SRPAgreement(sha256: Hash, params: AccountPassword, x: nat, a: nat, b: nat)
    requires HonestExchange(sha256, params, x, b)
    requires BuildSRPProof(sha256, params, x, a).Some?
    ensures var p, B, proof := FromBE(params.p), FromBE(params.srpB), BuildSRPProof(sha256, params, x, a).value;
            var u := ServerScrambler(sha256, proof.A, B, |params.p|);
            var secret := ServerSecret(p, FromBE(proof.A), ModExp(params.g, x, p), u, b);
            && |proof.A| == |params.p|
            && FromBE(proof.A) == ModExp(params.g, a, p)
            && (exists t :: Transcript(sha256, params, proof.A, secret, t))
            && (forall t :: Transcript(sha256, params, proof.A, secret, t) ==> proof.M1 == sha256(t))
  {
    hide ModExp, PadBig, M1, Multiplier, Scrambler, ServerMultiplier, ServerScrambler, ServerSecret, ServerPublic,
         Transcript, BuildSRPProof, ClientSecret;
    var p := FromBE(params.p);
    var ga := ModExp(params.g, a, p);
    var secret := ClientSecret(sha256, params, x, a);
    ClientM1Value(sha256, params, x, a);
    ClientSecretAgrees(sha256, params, x, a, b);
    SameHashes(sha256, params, ga, params.g);
    PadBigRoundTrip(ga, |params.p|);
    ClientTranscript(sha256, params, ga, secret);
    forall t, u | Transcript(sha256, params, PadBig(ga, |params.p|), secret, t)
               && Transcript(sha256, params, PadBig(ga, |params.p|), secret, u)
      ensures t == u
    {
      TranscriptUnique(sha256, params, PadBig(ga, |params.p|), secret, t, u);
    }
  }

  // What the powers are: the first one is the base, and each further one multiplies.

  lemma PowersOfBase(b: nat, e: nat, m: nat)
    requires m > 0
    ensures ModExp(b, 0, m) == 1 % m && ModExp(b, 1, m) == b % m
    ensures ModExp(b, e + 1, m) == (ModExp(b, e, m) * b) % m
  {
    ModMul(Pow(b, e), b, m);
  }
}

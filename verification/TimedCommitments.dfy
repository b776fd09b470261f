/**
 * Timed commitments with two opening routes (timed_commitments/src/basic_tc.rs, lazy_tc.rs, lib.rs) over the group
 * of hidden order and its proofs of exponentiation. `C` is the Pedersen group.
 */
module TimedCommitments {
  import opened Arithmetic
  import opened Bytes
  import opened Outcomes
  import opened CertificateGeneration
  import opened HiddenOrder
  import opened ExponentiationProofs

  /** The primitives the commitments are built from. */
  datatype Crypto<!C> = Crypto(
    poe: Setting,
    encode: int -> seq<byte>,
    digest: seq<byte> -> seq<byte>,
    pedersen: (nat, nat) -> C,
    modulus: nat,
    fieldBytes: nat)

  /** Digests have 32 bytes and field elements fit their width. */
  ghost predicate Sized<C>(k: Crypto<C>)
  {
    && Lawful(k.poe)
    && (forall m: seq<byte> :: |k.digest(m)| == 32)
    && 0 < k.modulus <= Pow(256, k.fieldBytes) && 0 < k.fieldBytes
  }

  // --------------------------------------------- one-time authenticated encryption

  function PadStream<C>(k: Crypto<C>, key: seq<byte>, from: nat, blocks: nat): seq<byte>
    decreases blocks
  {
    if blocks == 0 then [] else k.digest(key + [from % 256]) + PadStream(k, key, from + 1, blocks - 1)
  }

  lemma {:induction false} PadLength<C>(k: Crypto<C>, key: seq<byte>, from: nat, blocks: nat)
    requires Sized(k)
    ensures |PadStream(k, key, from, blocks)| == 32 * blocks
    decreases blocks
  {
    if blocks > 0 {
      PadLength(k, key, from + 1, blocks - 1);
    }
  }

  function Blocks(len: nat): (n: nat)
    requires len > 0
    ensures len <= 32 * n
  {
    (len - 1) / 32 + 1
  }

  function OneTimePad<C>(k: Crypto<C>, key: seq<byte>, m: seq<byte>): (r: seq<byte>)
    requires Sized(k) && |m| > 0
    ensures |r| == |m|
  {
    PadLength(k, key, 0, Blocks(|m|));
    XorAll(m, PadStream(k, key, 0, Blocks(|m|)))
  }

  lemma PadTwice<C>(k: Crypto<C>, key: seq<byte>, m: seq<byte>)
    requires Sized(k) && |m| > 0
    ensures OneTimePad(k, key, OneTimePad(k, key, m)) == m
  {
    PadLength(k, key, 0, Blocks(|m|));
    XorAllTwice(m, PadStream(k, key, 0, Blocks(|m|)));
  }

  function Mac<C>(k: Crypto<C>, key: seq<byte>, ct: seq<byte>, ad: seq<byte>): seq<byte>
    requires |key| == 32
  {
    k.digest(key[16..] + ct + ad)
  }

  /** Encrypting nothing underflows the block count. */
  function Encrypt<C>(k: Crypto<C>, key: seq<byte>, pt: seq<byte>, ad: seq<byte>): Outcome<seq<byte>>
    requires Sized(k) && |key| == 32
  {
    if pt == [] then Panic
    else
      var ct := OneTimePad(k, key[..16], pt);
      Done(ct + Mac(k, key, ct, ad))
  }

  /** A ciphertext without a byte before its tag stops the program; a wrong tag is an error. */
  function Decrypt<C>(k: Crypto<C>, key: seq<byte>, ct: seq<byte>, ad: seq<byte>): (r: Outcome<Option<seq<byte>>>)
    requires Sized(k) && |key| == 32
    ensures r.Panic? <==> |ct| <= 32
  {
    if |ct| <= 32 then Panic
    else
      var body, mac := ct[..|ct| - 32], ct[|ct| - 32..];
      if mac == Mac(k, key, body, ad) then Done(Some(OneTimePad(k, key[..16], body))) else Done(None)
  }

  /** For each key, decryption accepts exactly the encryptions, and inverts them. */
  lemma EncryptionBijective<C>(k: Crypto<C>, key: seq<byte>, ad: seq<byte>, pt: seq<byte>, ct: seq<byte>)
    requires Sized(k) && |key| == 32
    ensures (pt != [] && Encrypt(k, key, pt, ad) == Done(ct)) <==> Decrypt(k, key, ct, ad) == Done(Some(pt))
  {
    if pt != [] && Encrypt(k, key, pt, ad) == Done(ct) {
      var body := OneTimePad(k, key[..16], pt);
      assert ct[..|ct| - 32] == body && ct[|ct| - 32..] == Mac(k, key, body, ad);
      PadTwice(k, key[..16], pt);
    }
    if Decrypt(k, key, ct, ad) == Done(Some(pt)) {
      var body := ct[..|ct| - 32];
      PadTwice(k, key[..16], body);
      assert ct == body + ct[|ct| - 32..];
    }
  }

  lemma EncryptionInverted<C>(k: Crypto<C>, key: seq<byte>, ad: seq<byte>, pt: seq<byte>)
    requires Sized(k) && |key| == 32 && pt != []
    ensures Encrypt(k, key, pt, ad).Done? && Decrypt(k, key, Encrypt(k, key, pt, ad).value, ad) == Done(Some(pt))
  {
    EncryptionBijective(k, key, ad, pt, Encrypt(k, key, pt, ad).value);
  }

  // -------------------------------------------------------- time parameters

  datatype TimeParams = TimeParams(t: nat, x: int, y: int)

  ghost predicate Generated<C>(k: Crypto<C>, pp: TimeParams)
    requires k.poe.m > 0
  {
    pp.y == Power(k.poe.m, pp.x, TwoTo(pp.t))
  }

  function GenTimeParams<C>(k: Crypto<C>, generator: int, t: nat): Reply<(TimeParams, Proof)>
    requires Lawful(k.poe)
  {
    var g := Power(k.poe.m, generator, Exponent(t));
    var y := Power(k.poe.m, g, Exponent(t));
    match Prove(k.poe, g, y, t)
    case Stopped => Reply.Stopped
    case Refused => Refused
    case Accepted(f) => Accepted((TimeParams(t, g, y), f))
  }

  function GenTimeParamsCheating<C>(k: Crypto<C>, generator: int, t: nat, order: int): TimeParams
    requires k.poe.m > 0 && order > 0
  {
    var g := Power(k.poe.m, generator, ModPow(2, t, order));
    TimeParams(t, g, Power(k.poe.m, g, ModPow(2, t, order)))
  }

  function VerTimeParams<C>(k: Crypto<C>, pp: TimeParams, f: Proof): Outcome<bool>
    requires k.poe.m > 0
  {
    Verify(k.poe, pp.x, pp.y, pp.t, f)
  }

  /** Parameters generated with their proof are in the right relation, and verify exactly with a short certificate. */
  lemma ParamsGenerated<C>(k: Crypto<C>, generator: int, t: nat)
    requires Lawful(k.poe) && t < 0x1_0000_0000
    ensures var x, r := Power(k.poe.m, generator, TwoTo(t)), GenTimeParams(k, generator, t);
      && (r.Accepted? <==> FindChallenge(k.poe, x, Power(k.poe.m, x, TwoTo(t)), t).Found?)
      && (r.Accepted? ==>
            var (pp, f) := r.value;
            pp.x == x && pp.t == t && Generated(k, pp) && VerTimeParams(k, pp, f) == Done(ShortEnough(f.l, f.certs)))
  {
    hide Power, Exponent, TwoTo, Lawful, Verify, FindChallenge, ShortEnough;
    assert Exponent(t) == TwoTo(t);
    var r := GenTimeParams(k, generator, t);
    if r.Accepted? {
      TrueClaimVerdict(k.poe, r.value.0.x, r.value.0.y, t);
    }
  }

  /** The order-holder's parameters are in the same relation. */
  lemma CheatingParamsGenerated<C>(k: Crypto<C>, generator: int, t: nat, order: int)
    requires k.poe.m > 0 && Kills(k.poe.m, generator, order)
    ensures Generated(k, GenTimeParamsCheating(k, generator, t, order))
  {
    hide Power;
    var m := k.poe.m;
    var e := ModPow(2, t, order);
    var g := Power(m, generator, e);
    KillsPowers(m, generator, order, e);
    ReducedExponent(m, g, order, TwoTo(t));
  }

  /** An exponent that takes an element to the identity takes its powers there. */
  lemma KillsPowers(m: int, x: int, order: int, e: nat)
    requires m > 0 && Kills(m, x, order)
    ensures Kills(m, Power(m, x, e), order)
  {
    hide Power;
    PowersCommute(m, x, e, order);
    PowersCommute(m, x, e, 0);
  }

  // ------------------------------------------------- the basic timed commitment

  datatype Comm = Comm(x: int, ct: seq<byte>)

  datatype Opening = Self(r: int) | Force(y: int, proof: Proof)

  function KeyOf<C>(k: Crypto<C>, y: int): (key: seq<byte>)
    requires Sized(k)
    ensures |key| == 32
  {
    k.digest(k.encode(y))
  }

  function Ad(t: nat): seq<byte>
  {
    ToBE(t, 8)
  }

  function BasicCommit<C>(k: Crypto<C>, pp: TimeParams, r: nat, m: seq<byte>): Outcome<(Comm, Opening)>
    requires Sized(k)
  {
    match Encrypt(k, KeyOf(k, Power(k.poe.m, pp.y, r)), m, Ad(pp.t))
    case Panic => Panic
    case Done(ct) => Done((Comm(Power(k.poe.m, pp.x, r), ct), Self(r)))
  }

  /** What is made of an element and its proof; without a proof nothing is decrypted. */
  function OpenedWith<C>(k: Crypto<C>, pp: TimeParams, c: Comm, y: int, proof: Reply<Proof>): Reply<(Option<seq<byte>>, Opening)>
    requires Sized(k)
  {
    match proof
    case Stopped => Reply.Stopped
    case Refused => Refused
    case Accepted(f) =>
      match Decrypt(k, KeyOf(k, y), c.ct, Ad(pp.t))
      case Panic => Reply.Stopped
      case Done(m) => Accepted((m, Force(y, f)))
  }

  /** The element that an honest forced opening computes. */
  function ForcedElement<C>(k: Crypto<C>, pp: TimeParams, c: Comm): int
    requires k.poe.m > 0
  {
    Power(k.poe.m, c.x, Exponent(pp.t))
  }

  function BasicForceOpen<C>(k: Crypto<C>, pp: TimeParams, c: Comm): Reply<(Option<seq<byte>>, Opening)>
    requires Sized(k)
  {
    var y := ForcedElement(k, pp, c);
    OpenedWith(k, pp, c, y, Prove(k.poe, c.x, y, pp.t))
  }

  /** The shortcut for whoever knows the group order. */
  function BasicForceOpenCheating<C>(k: Crypto<C>, pp: TimeParams, c: Comm, order: int): Reply<(Option<seq<byte>>, Opening)>
    requires Sized(k) && order > 0
  {
    var y := Power(k.poe.m, c.x, ModPow(2, pp.t, order));
    OpenedWith(k, pp, c, y, ProveCheating(k.poe, c.x, y, pp.t, order))
  }

  /** The group element an opening vouches for and whether it is valid; a negative exponent stops the program. */
  function OpenedElement<C>(k: Crypto<C>, pp: TimeParams, c: Comm, o: Opening): Outcome<(int, bool)>
    requires k.poe.m > 0
  {
    match o
    case Self(r) => if r < 0 then Panic else Done((Power(k.poe.m, pp.y, r), Power(k.poe.m, pp.x, r) == c.x))
    case Force(y, proof) =>
      match Verify(k.poe, c.x, y, pp.t, proof)
      case Panic => Panic
      case Done(valid) => Done((y, valid))
  }

  function BasicVerOpen<C>(k: Crypto<C>, pp: TimeParams, c: Comm, m: Option<seq<byte>>, o: Opening): Outcome<bool>
    requires Sized(k)
  {
    match OpenedElement(k, pp, c, o)
    case Panic => Panic
    case Done((y, valid)) =>
      match Decrypt(k, KeyOf(k, y), c.ct, Ad(pp.t))
      case Panic => Panic
      case Done(d) => Done(valid && m == d)
  }

  /** The proof in an opening is about a true claim if it verifies, as it must be short of finding roots. */
  ghost predicate Sound<C>(k: Crypto<C>, pp: TimeParams, c: Comm, o: Opening)
    requires k.poe.m > 0
  {
    o.Force? && Verify(k.poe, c.x, o.y, pp.t, o.proof) == Done(true) ==> o.y == Power(k.poe.m, c.x, TwoTo(pp.t))
  }

  /** Both routes arrive at the same element, `c.x` raised to `2^t`. */
  lemma OpenedElementFixed<C>(k: Crypto<C>, pp: TimeParams, c: Comm, o: Opening)
    requires k.poe.m > 0 && Generated(k, pp) && Sound(k, pp, c, o)
    requires OpenedElement(k, pp, c, o).Done? && OpenedElement(k, pp, c, o).value.1
    ensures OpenedElement(k, pp, c, o).value.0 == Power(k.poe.m, c.x, TwoTo(pp.t))
  {
    hide Power, Verify;
    match o {
      case Self(r) => PowersCommute(k.poe.m, pp.x, TwoTo(pp.t), r);
      case Force(y, proof) =>
    }
  }

  /** Any two accepted openings of a basic commitment, by either route, agree on the message or on its absence. */
  lemma BasicUnique<C>(k: Crypto<C>, pp: TimeParams, c: Comm,
                       m: Option<seq<byte>>, o: Opening, m': Option<seq<byte>>, o': Opening)
    requires Sized(k) && k.poe.m > 0 && Generated(k, pp) && Sound(k, pp, c, o) && Sound(k, pp, c, o')
    requires BasicVerOpen(k, pp, c, m, o) == Done(true) && BasicVerOpen(k, pp, c, m', o') == Done(true)
    ensures m == m'
  {
    hide OpenedElement, Decrypt, KeyOf, Ad, Sized, Sound, Generated;
    OpenedElementFixed(k, pp, c, o);
    OpenedElementFixed(k, pp, c, o');
  }

  /**
   * A commitment's own opening is accepted. Forcing it open gives the message back whenever a challenge is found; it
   * is an error exactly when the nonces run out.
   */
  lemma BasicComplete<C>(k: Crypto<C>, pp: TimeParams, r: nat, m: seq<byte>)
    requires Sized(k) && k.poe.m > 0 && Generated(k, pp) && m != []
    ensures var res := BasicCommit(k, pp, r, m);
            && res.Done? && BasicVerOpen(k, pp, res.value.0, Some(m), res.value.1) == Done(true)
            && (pp.t < 0x1_0000_0000 ==>
                  var c := res.value.0;
                  var f, search := BasicForceOpen(k, pp, c), FindChallenge(k.poe, c.x, ForcedElement(k, pp, c), pp.t);
                  && (f.Accepted? <==> search.Found?) && (f.Refused? <==> search.NoValidNonce?)
                  && (f.Accepted? ==> f.value.0 == Some(m)))
  {
    hide Encrypt, Decrypt, Ad, KeyOf, Exponent, Power, FindChallenge, Pow;
    var key := KeyOf(k, Power(k.poe.m, pp.y, r));
    EncryptionInverted(k, key, Ad(pp.t), m);
    PowersCommute(k.poe.m, pp.x, TwoTo(pp.t), r);
  }

  /** The claim in a forced opening is the one its verifier reassembles; for times below 2^32 it always is. */
  predicate RightClaim<C>(k: Crypto<C>, x: int, t: nat, l: int)
    requires k.poe.m > 0 && l > 0
  {
    Power(k.poe.m, x, Exponent(t)) == Power(k.poe.m, x, Reassembled(t, l))
  }

  lemma ShortTimesRight<C>(k: Crypto<C>, x: int, t: nat, l: int)
    requires k.poe.m > 0 && l > 0 && t < 0x1_0000_0000
    ensures RightClaim(k, x, t, l)
  {
    ReassembledIs(t, l);
  }

  /**
   * When a forced opening of any commitment finishes, is an error, or stops, and the exact verdict on what it yields,
   * message or none: the certificate of its challenge must be short enough for the verifier.
   */
  lemma BasicForceVerdict<C>(k: Crypto<C>, pp: TimeParams, c: Comm)
    requires Sized(k) && k.poe.m > 0
    ensures var f, search := BasicForceOpen(k, pp, c), FindChallenge(k.poe, c.x, ForcedElement(k, pp, c), pp.t);
      && (f.Accepted? <==> search.Found? && |c.ct| > 32)
      && (f.Refused? <==> search.NoValidNonce?)
      && (f.Accepted? ==>
            && f.value.1.Force? && f.value.1.proof.l == search.p > 0 && f.value.1.proof.certs == search.certs
            && BasicVerOpen(k, pp, c, f.value.0, f.value.1)
               == Done(ShortEnough(search.p, search.certs) && RightClaim(k, c.x, pp.t, search.p)))
  {
    hide KeyOf, Ad, Power, FindChallenge, ShortEnough, Verify, Exponent, Reassembled, OneTimePad, Mac;
    if BasicForceOpen(k, pp, c).Accepted? {
      HonestProofVerdict(k.poe, c.x, ForcedElement(k, pp, c), pp.t);
    }
  }

  /** For times below 2^32 the certificate alone decides. */
  lemma BasicForceAccepted<C>(k: Crypto<C>, pp: TimeParams, c: Comm)
    requires Sized(k) && k.poe.m > 0 && pp.t < 0x1_0000_0000 && BasicForceOpen(k, pp, c).Accepted?
    ensures var (m, o) := BasicForceOpen(k, pp, c).value;
      o.Force? && BasicVerOpen(k, pp, c, m, o) == Done(ShortEnough(o.proof.l, o.proof.certs))
  {
    hide BasicForceOpen, BasicVerOpen, ShortEnough, RightClaim, FindChallenge, ForcedElement;
    BasicForceVerdict(k, pp, c);
    ShortTimesRight(k, c.x, pp.t, BasicForceOpen(k, pp, c).value.1.proof.l);
  }

  /** The trapdoor route ends exactly as the honest one: same message, same proof, same failures. */
  lemma CheatingAgrees<C>(k: Crypto<C>, pp: TimeParams, c: Comm, order: int)
    requires Sized(k) && k.poe.m > 0 && Kills(k.poe.m, c.x, order) && pp.t < 0x1_0000_0000
    ensures BasicForceOpenCheating(k, pp, c, order) == BasicForceOpen(k, pp, c)
  {
    hide Power, OpenedWith, Prove, ProveCheating;
    ReducedExponent(k.poe.m, c.x, order, TwoTo(pp.t));
    CheatingProofSame(k.poe, c.x, ForcedElement(k, pp, c), pp.t, order);
  }

  // -------------------------------------------------- the lazy timed commitment

  datatype LazyComm<C> = LazyComm(ped: C, tc: Comm)

  datatype LazyOpening = LazyOpening(tc: Opening, m: Option<seq<byte>>)

  function NatToF<C>(k: Crypto<C>, n: nat): Option<nat>
  {
    if n < k.modulus then Some(n) else None
  }

  predicate PedVerOpen<C(==)>(k: Crypto<C>, comm: C, m: seq<byte>, opening: nat)
  {
    match NatToF(k, FromLE(m))
    case Some(f) => k.pedersen(f, opening) == comm
    case None => false
  }

  /** The committed message followed by the Pedersen opening. */
  function Message<C>(k: Crypto<C>, tcm: seq<byte>): seq<byte>
    requires |tcm| >= k.fieldBytes
  {
    tcm[..|tcm| - k.fieldBytes]
  }

  function Tail<C>(k: Crypto<C>, tcm: seq<byte>): nat
    requires |tcm| >= k.fieldBytes
  {
    FromBE(tcm[|tcm| - k.fieldBytes..])
  }

  /** `Done(None)` is the error of a message outside the field. */
  function LazyCommit<C>(k: Crypto<C>, pp: TimeParams, m: seq<byte>, pedR: nat, r: nat): Outcome<Option<(LazyComm<C>, LazyOpening)>>
    requires Sized(k) && pedR < k.modulus
  {
    match NatToF(k, FromLE(m))
    case None => Done(None)
    case Some(f) =>
      var tcm := m + ToBE(pedR, k.fieldBytes);
      match BasicCommit(k, pp, r, tcm)
      case Panic => Panic
      case Done((tc, o)) => Done(Some((LazyComm(k.pedersen(f, pedR), tc), LazyOpening(o, Some(tcm)))))
  }

  /** What the decrypted bytes mean: the message if its Pedersen part checks out, none otherwise. */
  function Interpret<C(==)>(k: Crypto<C>, ped: C, tcm: Option<seq<byte>>): (r: Outcome<Option<seq<byte>>>)
    ensures r.Panic? <==> tcm.Some? && |tcm.value| < k.fieldBytes
  {
    match tcm
    case None => Done(None)
    case Some(b) =>
      if |b| < k.fieldBytes then Panic
      else match NatToF(k, Tail(k, b))
        case None => Done(None)
        case Some(o) => Done(if PedVerOpen(k, ped, Message(k, b), o) then Some(Message(k, b)) else None)
  }

  function LazyForceOpen<C(==)>(k: Crypto<C>, pp: TimeParams, c: LazyComm<C>): Reply<(Option<seq<byte>>, LazyOpening)>
    requires Sized(k)
  {
    Interpreted(k, c.ped, BasicForceOpen(k, pp, c.tc))
  }

  function LazyForceOpenCheating<C(==)>(k: Crypto<C>, pp: TimeParams, c: LazyComm<C>, order: int): Reply<(Option<seq<byte>>, LazyOpening)>
    requires Sized(k) && order > 0
  {
    Interpreted(k, c.ped, BasicForceOpenCheating(k, pp, c.tc, order))
  }

  function Interpreted<C(==)>(k: Crypto<C>, ped: C, r: Reply<(Option<seq<byte>>, Opening)>): Reply<(Option<seq<byte>>, LazyOpening)>
  {
    match r
    case Stopped => Reply.Stopped
    case Refused => Refused
    case Accepted((tcm, o)) =>
      match Interpret(k, ped, tcm)
      case Panic => Reply.Stopped
      case Done(m) => Accepted((m, LazyOpening(o, tcm)))
  }

  /** `Done(None)` is the error of a tail outside the field. */
  function LazyVerOpen<C(==)>(k: Crypto<C>, pp: TimeParams, c: LazyComm<C>, m: Option<seq<byte>>, o: LazyOpening): Outcome<Option<bool>>
    requires Sized(k)
  {
    match BasicVerOpen(k, pp, c.tc, o.m, o.tc)
    case Panic => Panic
    case Done(tcValid) =>
      match o.m
      case None => Done(Some(tcValid && m == None))
      case Some(b) =>
        if |b| < k.fieldBytes then Panic
        else match NatToF(k, Tail(k, b))
          case None => Done(None)
          case Some(opening) =>
            var pedValid := PedVerOpen(k, c.ped, Message(k, b), opening);
            match m
            case Some(bytes) => Done(Some(tcValid && pedValid && Message(k, b) == bytes))
            case None => Done(Some(tcValid && !pedValid))
  }

  /** Acceptance fixes the outcome: it is what the decrypted bytes mean. */
  lemma AcceptedMeans<C>(k: Crypto<C>, pp: TimeParams, c: LazyComm<C>, m: Option<seq<byte>>, o: LazyOpening)
    requires Sized(k) && LazyVerOpen(k, pp, c, m, o) == Done(Some(true))
    ensures BasicVerOpen(k, pp, c.tc, o.m, o.tc) == Done(true) && Interpret(k, c.ped, o.m) == Done(m)
  {
    hide BasicVerOpen, Sized, Tail, Message, PedVerOpen;
  }

  /** Every commitment, well formed or not, has a single acceptable outcome over all openings of both kinds. */
  lemma LazyUnique<C>(k: Crypto<C>, pp: TimeParams, c: LazyComm<C>,
                      m: Option<seq<byte>>, o: LazyOpening, m': Option<seq<byte>>, o': LazyOpening)
    requires Sized(k) && k.poe.m > 0 && Generated(k, pp) && Sound(k, pp, c.tc, o.tc) && Sound(k, pp, c.tc, o'.tc)
    requires LazyVerOpen(k, pp, c, m, o) == Done(Some(true)) && LazyVerOpen(k, pp, c, m', o') == Done(Some(true))
    ensures m == m'
  {
    hide *;
    AcceptedMeans(k, pp, c, m, o);
    AcceptedMeans(k, pp, c, m', o');
    BasicUnique(k, pp, c.tc, o.m, o.tc, o'.m, o'.tc);
  }

  /** An accepted message is the one inside the Pedersen commitment. */
  lemma OpenedIsCommitted<C>(k: Crypto<C>, pp: TimeParams, c: LazyComm<C>, bytes: seq<byte>, o: LazyOpening)
    requires Sized(k) && LazyVerOpen(k, pp, c, Some(bytes), o) == Done(Some(true))
    ensures FromLE(bytes) < k.modulus && exists r: nat :: r < k.modulus && c.ped == k.pedersen(FromLE(bytes), r)
  {
    hide BasicVerOpen, Sized, FromLE, Tail;
    var r := Tail(k, o.m.value);
    assert c.ped == k.pedersen(FromLE(bytes), r);
  }

  /** Commit, then open yourself or be forced open: both reveal the committed bytes. */
  lemma LazyComplete<C>(k: Crypto<C>, pp: TimeParams, m: seq<byte>, pedR: nat, r: nat)
    requires Sized(k) && k.poe.m > 0 && Generated(k, pp) && pedR < k.modulus && FromLE(m) < k.modulus
    ensures var res := LazyCommit(k, pp, m, pedR, r);
            && res.Done? && res.value.Some?
            && var (c, o) := res.value.value;
            && LazyVerOpen(k, pp, c, Some(m), o) == Done(Some(true))
            && Tail(k, o.m.value) == pedR
            && (pp.t < 0x1_0000_0000 ==>
                  var f, search := LazyForceOpen(k, pp, c), FindChallenge(k.poe, c.tc.x, ForcedElement(k, pp, c.tc), pp.t);
                  && (f.Accepted? <==> search.Found?) && (f.Refused? <==> search.NoValidNonce?)
                  && (f.Accepted? ==> f.value.0 == Some(m)))
  {
    hide Pow, ToBE, FromBE, FromLE, Exponent, BasicCommit, BasicForceOpen, BasicVerOpen, FindChallenge;
    var tcm := m + ToBE(pedR, k.fieldBytes);
    assert tcm[..|tcm| - k.fieldBytes] == m && tcm[|tcm| - k.fieldBytes..] == ToBE(pedR, k.fieldBytes);
    BERoundTrip(pedR, k.fieldBytes);
    BasicComplete(k, pp, r, tcm);
  }

  /** The decrypted tail is a field element; only then does the verifier get past parsing it. */
  predicate TailInField<C>(k: Crypto<C>, tcm: Option<seq<byte>>)
  {
    tcm.Some? && |tcm.value| >= k.fieldBytes ==> Tail(k, tcm.value) < k.modulus
  }

  /**
   * The exact verdict on a finished forced opening of any commitment, malformed ones included: an error if the
   * decrypted tail is no field element; otherwise accepted exactly with a short certificate.
   */
  lemma LazyForceAccepted<C>(k: Crypto<C>, pp: TimeParams, c: LazyComm<C>)
    requires Sized(k) && k.poe.m > 0 && pp.t < 0x1_0000_0000
    requires LazyForceOpen(k, pp, c).Accepted?
    ensures var (m, o) := LazyForceOpen(k, pp, c).value;
      o.tc.Force?
      && LazyVerOpen(k, pp, c, m, o) == Done(if TailInField(k, o.m) then Some(ShortEnough(o.tc.proof.l, o.tc.proof.certs)) else None)
  {
    hide BasicForceOpen, BasicVerOpen, Sized, ShortEnough, Tail, PedVerOpen, Message;
    BasicForceAccepted(k, pp, c.tc);
  }

  /** When forcing open finishes, and when it is an error: exactly when the nonces run out. All else stops the program. */
  lemma LazyForceStops<C>(k: Crypto<C>, pp: TimeParams, c: LazyComm<C>)
    requires Sized(k) && k.poe.m > 0
    ensures var search := FindChallenge(k.poe, c.tc.x, ForcedElement(k, pp, c.tc), pp.t);
      && (LazyForceOpen(k, pp, c).Accepted? <==>
            search.Found? && |c.tc.ct| > 32
            && (BasicForceOpen(k, pp, c.tc).value.0.Some? ==> |BasicForceOpen(k, pp, c.tc).value.0.value| >= k.fieldBytes))
      && (LazyForceOpen(k, pp, c).Refused? <==> search.NoValidNonce?)
  {
    hide BasicForceOpen, BasicVerOpen, Sized, ShortEnough, FindChallenge, ForcedElement, RightClaim;
    BasicForceVerdict(k, pp, c.tc);
  }

  /** Both ways of forcing open end alike. */
  lemma LazyCheatingAgrees<C>(k: Crypto<C>, pp: TimeParams, c: LazyComm<C>, order: int)
    requires Sized(k) && k.poe.m > 0 && Kills(k.poe.m, c.tc.x, order) && pp.t < 0x1_0000_0000
    ensures LazyForceOpenCheating(k, pp, c, order) == LazyForceOpen(k, pp, c)
  {
    CheatingAgrees(k, pp, c.tc, order);
  }
}

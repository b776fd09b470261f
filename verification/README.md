# Verified model of the sealed-bid auction system

A Dafny 4.11 model of the auction house, its cryptographic building blocks and the demonstration server around
it, with proofs of what each part is for. `dafny verify dfyconfig.toml` checks the whole project.

What is modelled, by module:

- `Arithmetic`, `Primes`: division, congruence, powers; Bezout, Euclid's lemma, Fermat's little theorem, unit exponents.
- `Pocklington`, `CertificateGeneration`, `MillerRabin`: primality certificates (checking and generating), the
  nonce search, Miller-Rabin rounds and the small-prime sieve. `BaseExistence` says what the base test means and proves,
  by Lagrange's bound on roots, that a base is always found; `StrongTest` says what a round decides of any odd number.
- `Vectors`, `InnerProduct`, `RangeProof`: the range proof's prover and verifier. Points are their discrete logs
  and field elements integers compared modulo the group order `p`, so every group equation is one over residues;
  the transcript hash is an arbitrary function of canonical residues. `RangeSoundness` is about proofs of any origin:
  what each half of the combined check means and what acceptance binds.
- `HiddenOrder`, `ExponentiationProofs`: the group of residues up to sign modulo an RSA number, with its power laws
  proved, and the proofs of exponentiation whose challenge prime comes from the nonce search.
- `Bytes`, `TimedCommitments`: one-time authenticated encryption, basic and lazy timed commitments with both
  opening routes. `Authenticity` says what the tag, the key and the pad bind; every such statement ends in two different
  inputs of the hash with one digest.
- `Settlement`: the (k+1)-price rule, its selection step and its truthfulness.
- `Ledger`, `LedgerSafety`, `LedgerMoney`, `AuctionHouses`: the house as a state machine and as an object whose
  methods update its fields, with solvency and conservation over whole runs.
- `Clients`, `ClientObjects`: the client's private mirror of its account.
- `SnarkAuctions`: the clock-driven auction and the settlement gated on its last phase.
- `Worlds`, `WorldClients`, `WorldObjects`, `Reveals`: the server's world with its indices and clients beside the
  house, and the interleaving of reveal tasks, one step per lock acquisition. A phase change or a round end is one
  task per bidder it reveals. The opening a client keeps with an active bid has a map of its own. `WorldAnswers` says
  when each request is taken, in the house's terms, and what a round end settles; `RevealRuns` what a task achieves, how it ends and what the cache
  holds.
- `HashChain`: the hash-linked demonstration chain.
- `Limbs`: numbers as limbs of a prime field.
- `Counterexamples`, `RoundEnd`: concrete inputs at which the code does not do what is promised.

Conventions. `Outcome` separates a panic (`Panic`) from a finished computation; `Reply` separates a panic
(`Stopped`), an error that leaves no trace (`Refused`) and a new state (`Accepted`). Each object method is proved
to compute the function that specifies it; the theorems are about those functions. A Pedersen commitment in the
ledger is the pair of its value and blinding modulo `p`, which assumes that nobody can open one in two ways.
Range proofs and openings enter the ledger only by their laws: a verified range proof means a value below 2^32,
an accepted opening to a bid means that bid was committed (`TimedCommitments.OpenedIsCommitted`); completeness
of honest range proofs is proved in `RangeProof`. Proofs of exponentiation are taken to be sound only
for the openings at hand (`TimedCommitments.Sound`); `ExponentiationProofs.AcceptedGivesRoot` shows what breaking that
takes. 32-bit sums and differences stop the program when they leave the range, and so does a range proof with the
wrong number of rounds, as in builds with overflow checks and debug assertions; a build without them wraps around,
and goes on with misaligned exponents.

Where the code does less or other than its comments say, the model follows the code:

- The Pocklington verifier never uses the claim that the factored part and the cofactor are coprime for soundness;
  the Bezout check is redundant there. Its square test also rejects primes with a negative discriminant
  (`Pocklington.StepExact`, `Counterexamples.PrimeTurnedDown`).
- The generator stops at 2^32 but the verifier's terminal check wants fewer than 32 bits and rejects the bases
  of its own test, so a generated certificate can be refused; `CertificateGeneration.GeneratedAccepted` gives the
  exact condition and `StopBoundMismatchExample` a number.
- Proofs of exponentiation carry such a certificate. At a commitment whose challenge has one the verifier refuses, an
  honest forced opening finishes and is then refused, every time: forced openings are accepted exactly with a short
  certificate (`TimedCommitments.BasicForceVerdict`, `LazyForceAccepted`, `Counterexamples.ForcedOpeningRefused`). If no
  nonce is usable, forcing open is an error.
- A forced lazy opening whose decrypted tail lies outside the field yields a result that its own verifier answers
  with an error (`TimedCommitments.LazyForceAccepted`, `Counterexamples.LazyOpeningErrs`).
- Ending a round settles on the number of revealed bids alone, so a bid still being computed, or whose reveal failed,
  makes the settlement's lookup fail (`WorldClients.ClosingStops`, `RoundEnd.RoundEndStops`).
- The range prover's debug assertions on its statement are dropped, so that its verdict is also stated for false
  statements (`RangeProof.ExactVerdict`).

## Model

| member | source | states |
|---|---|---|
| Pocklington.DivisorCongruent | riggs-master/riggs-master/rsa/src/hash_to_prime/pocklington.rs:270-326 | every prime divisor of a number whose base and exponent tests passed is 1 modulo the factored part of p-1 (multiplicative-order argument) |
| Pocklington.CompositeFailsSquareTest | riggs-master/riggs-master/rsa/src/hash_to_prime/pocklington.rs:270-297 | with a prime certified factor and the size bound, a composite p has two factors whose sum and product are read off v mod 2u, so r^2-8s is a square and the test rejects |
| Pocklington.SquareGivesFactors | riggs-master/riggs-master/rsa/src/hash_to_prime/pocklington.rs:270-297 | conversely, a square discriminant with non-zero quotient gives an explicit proper factorization |
| Pocklington.SquareTestDecides | riggs-master/riggs-master/rsa/src/hash_to_prime/pocklington.rs:270-297 | under the remaining checks the square test passes exactly for primes with zero quotient or non-negative discriminant: the code also turns down primes whose discriminant is negative |
| Pocklington.StepExact | riggs-master/riggs-master/rsa/src/hash_to_prime/pocklington.rs:255-326 | exact acceptance condition of a step over a prime factor, both directions |
| Pocklington.BoundIsSharp | riggs-master/riggs-master/rsa/src/hash_to_prime/pocklington.rs:270-297 | the size bound is itself a composite number of the shape the test must exclude, so no larger bound would do and a smaller one would refuse more than it must |
| BaseExistence.BasePasses | riggs-master/riggs-master/rsa/src/hash_to_prime/pocklington.rs:299-326 | for every p > 1: the base test passes exactly when a^(p-1) is 1 modulo p while a^((p-1)/f) and a^((p-1)/2) are 1 modulo no divisor of p |
| BaseExistence.BasePassesOnPrime | riggs-master/riggs-master/rsa/src/hash_to_prime/pocklington.rs:299-326 | for a prime p exactly the non-multiples whose two powers are not 1 |
| BaseExistence.RootsBounded | riggs-master/riggs-master/rsa/src/hash_to_prime/pocklington.rs:299-326 | Lagrange: a polynomial has at most as many roots modulo a prime as its degree, which bounds the bases that fail |
| BaseExistence.LeastBaseFound | riggs-master/riggs-master/rsa/src/hash_to_prime/pocklington.rs:189-199 | for every prime and every odd factor of p-1 the search for a base succeeds |
| BaseExistence.StepFailsExactly | riggs-master/riggs-master/rsa/src/hash_to_prime/pocklington.rs:166-252 | generating a step for a prime fails exactly when every odd prime power of p-1 fails the size or the square test |
| Counterexamples.PrimeTurnedDown | riggs-master/riggs-master/rsa/src/hash_to_prime/pocklington.rs:270-297 | the prime 79 is turned down although every other requirement on its certificate holds: its discriminant is -7 |
| Pocklington.StepSound | riggs-master/riggs-master/rsa/src/hash_to_prime/pocklington.rs:255-268 | an accepted step over a prime factor proves p prime |
| Pocklington.ChainSound | riggs-master/riggs-master/rsa/src/hash_to_prime/pocklington.rs:115-135 | accepted steps carry primality from the terminal number up to p and to every certified factor |
| Pocklington.AcceptedIsPrime | riggs-master/riggs-master/rsa/src/hash_to_prime/pocklington.rs:115-145 | for every hash value, claimed number and certificate: acceptance implies p is the hashed number and is prime, given that the three-base test is right about the terminal number below 2^31 |
| CertificateGeneration.SplitOff | riggs-master/riggs-master/rsa/src/hash_to_prime/pocklington.rs:166-205 | removing the power of 2 and one odd prime power from p-1 leaves an odd cofactor coprime to what was removed |
| CertificateGeneration.FindBase | riggs-master/riggs-master/rsa/src/hash_to_prime/pocklington.rs:189-199 | the search returns the least base in 2..p-2 that passes, or none when none does |
| CertificateGeneration.GeneratedStep | riggs-master/riggs-master/rsa/src/hash_to_prime/pocklington.rs:166-252 | a step built from the factorization of p-1 is accepted by the step verifier, Bezout witness included |
| CertificateGeneration.PocklingtonStep | riggs-master/riggs-master/rsa/src/hash_to_prime/pocklington.rs:166-252 | the method computes the step: the first usable factor and the least base, failing only for want of either |
| CertificateGeneration.Path | riggs-master/riggs-master/rsa/src/hash_to_prime/pocklington.rs:154-164 | the path ends (each certified factor is smaller), every step of it is accepted, and it stops at or below 2^32 |
| CertificateGeneration.GeneratePath | riggs-master/riggs-master/rsa/src/hash_to_prime/pocklington.rs:154-164 | the loop returns exactly that path |
| CertificateGeneration.GeneratedAccepted | riggs-master/riggs-master/rsa/src/hash_to_prime/pocklington.rs:136-143 | exactly when a generated certificate is accepted: terminal prime below 2^31 and neither 7 nor 61 |
| CertificateGeneration.StopBoundMismatchExample | riggs-master/riggs-master/rsa/src/hash_to_prime/pocklington.rs:136-164 | 2147483659 gets an empty path from the generator and a refusal from the verifier, since their bounds differ |
| CertificateGeneration.StopBoundMismatch | riggs-master/riggs-master/rsa/src/hash_to_prime/pocklington.rs:136-164 | the same for every number from 2^31 to the stop bound |
| CertificateGeneration.ThirtyImplyThree | riggs-master/riggs-master/rsa/src/hash_to_prime/mod.rs:117-122 | a number above 61 that passed thirty rounds passes the three-base test |
| CertificateGeneration.FoundVerdict | riggs-master/riggs-master/rsa/src/hash_to_prime/pocklington.rs:73-145 | the exact verdict of the verifier on what the nonce search returned |
| CertificateGeneration.SearchOutcome | riggs-master/riggs-master/rsa/src/hash_to_prime/pocklington.rs:73-113 | the search returns the first usable nonce, or reports none exactly when none is usable; it stops only at a candidate of at most 1 |
| CertificateGeneration.SearchVerdict | riggs-master/riggs-master/rsa/src/hash_to_prime/pocklington.rs:73-145 | for every hash, the verifier's verdict on what the search finds is decided by the terminal number |
| CertificateGeneration.HashToPrime | riggs-master/riggs-master/rsa/src/hash_to_prime/pocklington.rs:73-113 | the nonce loop computes that search over the first thirty primes |
| CertificateGeneration.HashToInteger | riggs-master/riggs-master/rsa/src/hash_to_prime/mod.rs:140-151 | the top bit is set and all lower bits are those of the digest |
| MillerRabin.MillerRabinRound | riggs-master/riggs-master/rsa/src/hash_to_prime/mod.rs:96-115 | the squaring loop decides the strong-probable-prime property, told in powers by StrongTest.RoundInPowers; even numbers fail and odd numbers below 3 stop |
| MillerRabin.RootChain | riggs-master/riggs-master/rsa/src/hash_to_prime/mod.rs:96-115 | for a prime, the squarings from b^d pass through -1 or start at 1 |
| MillerRabin.RoundOnPrime | riggs-master/riggs-master/rsa/src/hash_to_prime/mod.rs:96-115 | for a prime n the round says true exactly when n is odd and does not divide b |
| MillerRabin.SmallPrimes | riggs-master/riggs-master/rsa/src/hash_to_prime/mod.rs:79-94 | the sieve ends (Euclid) with exactly the first k primes, one when k is 0 |
| MillerRabin.NextPrime | riggs-master/riggs-master/rsa/src/hash_to_prime/mod.rs:79-94 | above any list of the first primes there is another prime: the measure of the sieve |
| MillerRabin.MillerRabinOnPrime | riggs-master/riggs-master/rsa/src/hash_to_prime/mod.rs:78-95 | verdict of all rounds on a prime, for any list of bases |
| MillerRabin.PrimePassesAboveBases | riggs-master/riggs-master/rsa/src/hash_to_prime/mod.rs:78-95 | a prime passes exactly when it is above the k-th prime |
| MillerRabin.MillerRabinTest | riggs-master/riggs-master/rsa/src/hash_to_prime/mod.rs:78-95 | the whole test uses the first primes as bases and accepts every prime above them |
| MillerRabin.MillerRabin32OnPrime | riggs-master/riggs-master/rsa/src/hash_to_prime/mod.rs:117-122 | the three-base test accepts every prime except 2, 7 and 61, which it rejects |
| StrongTest.RoundInPowers | riggs-master/riggs-master/rsa/src/hash_to_prime/mod.rs:96-115 | for every n above 1 and every base: the round says true exactly when n is odd, b^(n-1) is 1 and, halving the exponent from there, no square root of 1 other than 1 and -1 is met |
| StrongTest.PassedIsFermat | riggs-master/riggs-master/rsa/src/hash_to_prime/mod.rs:96-115 | every round that is passed passes the test of Fermat |
| StrongTest.AllRoundsInPowers | riggs-master/riggs-master/rsa/src/hash_to_prime/mod.rs:78-95 | all rounds are passed exactly when each base has that property |
| StrongTest.NineRejected | riggs-master/riggs-master/rsa/src/hash_to_prime/mod.rs:96-115 | 9 is rejected to base 2 |
| StrongTest.CarmichaelRejected | riggs-master/riggs-master/rsa/src/hash_to_prime/mod.rs:96-115 | 561 is rejected to base 2 although 2^560 is 1 modulo 561 |
| Vectors.ScalarPowers | riggs-master/riggs-master/range_proofs/src/bulletproofs.rs:517-526 | the loop returns the powers 1, s, s^2, ... |
| InnerProduct.RoundPreserves | riggs-master/riggs-master/range_proofs/src/bulletproofs.rs:235-341 | folding invariant: the commitment of the folded vectors is P + x*L + x^-1*R |
| InnerProduct.FoldingLoop | riggs-master/riggs-master/range_proofs/src/bulletproofs.rs:235-341 | the in-place halving loop computes the recursive prover |
| InnerProduct.AggregateExponents | riggs-master/riggs-master/range_proofs/src/bulletproofs.rs:473-481 | the doubling loop computes the aggregated exponents |
| InnerProduct.AggregateIsFold | riggs-master/riggs-master/range_proofs/src/bulletproofs.rs:473-481 | the doubled exponents applied to any vector give that vector folded round by round |
| InnerProduct.FlatIsRecursive | riggs-master/riggs-master/range_proofs/src/bulletproofs.rs:462-503 | for any rounds and any revealed pair, honest or not, the one-pass residual equals the recursive one |
| InnerProduct.ProverSatisfies | riggs-master/riggs-master/range_proofs/src/bulletproofs.rs:235-354 | the recursive check of the prover's own output leaves no residual |
| RangeProof.Verify | riggs-master/riggs-master/range_proofs/src/bulletproofs.rs:358-513 | the verifier with its loops computes the specified verdict, which RangeSoundness.TwoCombiners and BothHoldAccepted pin for proofs of any origin |
| RangeProof.ProveInRange | riggs-master/riggs-master/range_proofs/src/bulletproofs.rs:53-354 | the prover with its loops computes the specified proof |
| RangeProof.VerifierRefinesRecursion | riggs-master/riggs-master/range_proofs/src/bulletproofs.rs:437-513 | for every proof the combined check and a verifier that halves the bases round by round give the same verdict |
| RangeProof.BitsValue | riggs-master/riggs-master/range_proofs/src/bulletproofs.rs:70-89 | the bit vector recombines to v mod 2^n |
| RangeProof.T0Value | riggs-master/riggs-master/range_proofs/src/bulletproofs.rs:143-223 | the constant coefficient of the prover's polynomial is z^2*v + delta |
| RangeProof.HonestLinear | riggs-master/riggs-master/range_proofs/src/bulletproofs.rs:448-460 | the linear half of the check on an honest proof is z^2 times the gap between commitment and statement |
| RangeProof.HonestProduct | riggs-master/riggs-master/range_proofs/src/bulletproofs.rs:462-503 | the inner-product half of the check on an honest proof vanishes |
| RangeProof.HonestVerdict | riggs-master/riggs-master/range_proofs/src/bulletproofs.rs:53-513 | exact verdict on an honestly computed proof, for true and false statements alike |
| RangeProof.Completeness | riggs-master/riggs-master/range_proofs/src/bulletproofs.rs:53-513 | perfect completeness: n a power of two, any v below 2^n, any opening, coins and transcript hash for which the prover finishes |
| RangeProof.ExactVerdict | riggs-master/riggs-master/range_proofs/src/bulletproofs.rs:53-513 | with non-zero challenges, an honestly computed proof is accepted exactly when the commitment opens to v mod 2^n |
| RangeProof.ProverFinishes | riggs-master/riggs-master/range_proofs/src/bulletproofs.rs:140-345 | a prover that stops has hashed something to a challenge without an inverse; one that finishes has drawn none, and the verifier finishes too |
| RangeSoundness.LinearMeans | riggs-master/riggs-master/range_proofs/src/bulletproofs.rs:453-463 | the linear half vanishes modulo p exactly when tX and its blinding open z^2*comm + offset + x*T1 + x^2*T2 |
| RangeSoundness.ResidualMeans | riggs-master/riggs-master/range_proofs/src/bulletproofs.rs:473-505 | with invertible round challenges the residual of the recursive check is what separates P + sum(x*L + x^-1*R) from the pair (a, b) under the fully folded bases |
| RangeSoundness.BothHoldAccepted | riggs-master/riggs-master/range_proofs/src/bulletproofs.rs:507-513 | a proof of any origin that satisfies both equations is accepted, whatever combines them |
| RangeSoundness.TwoCombiners | riggs-master/riggs-master/range_proofs/src/bulletproofs.rs:448-513 | soundness of the combination for arbitrary proofs: accepted under two combiners not congruent modulo p, a proof satisfies both the linear and the inner-product equation; otherwise at most one residue of the combiner accepts it |
| RangeSoundness.TranscriptBinds | riggs-master/riggs-master/range_proofs/src/bulletproofs.rs:400-452 | two proofs that arrive at the same combiner agree on parameters, commitment and every part up to residues, or two different inputs of a hash collide |
| TimedCommitments.EncryptionBijective | riggs-master/riggs-master/timed_commitments/src/basic_tc.rs:187-228 | for each key, decryption accepts exactly the encryptions of non-empty plaintexts and inverts them |
| Authenticity.AcceptedTag | riggs-master/riggs-master/timed_commitments/src/basic_tc.rs:200-216 | a ciphertext decrypts exactly when its last 32 bytes are the digest of second key half, body and associated data in this order |
| Authenticity.TagBinds | riggs-master/riggs-master/timed_commitments/src/basic_tc.rs:187-216 | one tag goes with one key half, one body and one associated data of its width, or two different inputs of the hash collide |
| Authenticity.TimeBound | riggs-master/riggs-master/timed_commitments/src/basic_tc.rs:187-216 | a ciphertext accepted for two different 64-bit times gives two different inputs of the hash with one digest |
| Authenticity.OtherTimeRefused | riggs-master/riggs-master/timed_commitments/src/basic_tc.rs:150-182 | the same for two accepted openings of one commitment to messages under two times |
| Authenticity.ElementBound | riggs-master/riggs-master/timed_commitments/src/basic_tc.rs:150-182 | whoever gets a message out of a ciphertext with another group element has a collision of the hash or of the key half of its digests |
| Authenticity.PadByte | riggs-master/riggs-master/timed_commitments/src/basic_tc.rs:218-227 | bit for bit, encryption flips exactly where byte i mod 32 of the digest of key and block number i/32 has a one |
| Bytes.XorBitwise | riggs-master/riggs-master/timed_commitments/src/basic_tc.rs:224-226 | exclusive or flips a bit exactly where the pad has a one |
| HiddenOrder.PowerPower | riggs-master/riggs-master/rsa/src/hog/mod.rs:81-89 | a power of a power is the power to the product, for residues taken up to sign |
| HiddenOrder.PowerSum | riggs-master/riggs-master/rsa/src/hog/mod.rs:55-89 | the product of two powers is the power to the sum |
| HiddenOrder.CanonDecides | riggs-master/riggs-master/rsa/src/hog/mod.rs:55-89 | two integers have the same canonical element exactly when they are congruent up to sign |
| HiddenOrder.ReducedExponent | riggs-master/riggs-master/rsa/src/hog/mod.rs:81-89 | exponents may be reduced modulo any exponent that takes the element to the identity |
| ExponentiationProofs.HonestProofVerdict | riggs-master/riggs-master/rsa/src/poe/mod.rs:35-99 | the exact verdict on an honestly computed proof of any claim at any time parameter: a short certificate, and the claimed power is the reassembled one |
| ExponentiationProofs.TrueClaimVerdict | riggs-master/riggs-master/rsa/src/poe/mod.rs:35-99 | for times below 2^32: accepted exactly when the certificate of the challenge is short enough and v = u^(2^t) |
| ExponentiationProofs.CheatingProofSame | riggs-master/riggs-master/rsa/src/poe/mod.rs:54-81 | the order-holder computes the honest proof itself |
| ExponentiationProofs.AcceptedGivesRoot | riggs-master/riggs-master/rsa/src/poe/mod.rs:83-99 | an accepted proof hands over an l-th root of the claimed over the true power, l being a hashed prime: false claims need such roots |
| ExponentiationProofs.RootGivesProof | riggs-master/riggs-master/rsa/src/poe/mod.rs:83-99 | conversely such a root gives an accepted proof |
| TimedCommitments.OpenedElementFixed | riggs-master/riggs-master/timed_commitments/src/basic_tc.rs:150-182 | both opening routes vouch for the same element, c.x to the power 2^t |
| TimedCommitments.BasicUnique | riggs-master/riggs-master/timed_commitments/src/basic_tc.rs:150-182 | two accepted openings of a commitment, SELF or FORCE in any mix, agree on the message or on its absence |
| TimedCommitments.BasicComplete | riggs-master/riggs-master/timed_commitments/src/basic_tc.rs:87-124 | a commitment's own opening is accepted; forcing it open returns the message whenever a challenge is found and is an error exactly when the nonces run out |
| TimedCommitments.BasicForceVerdict | riggs-master/riggs-master/timed_commitments/src/basic_tc.rs:105-182 | for any commitment and any time: exactly when a forced opening finishes, is an error or stops, and the exact verdict on it |
| TimedCommitments.BasicForceAccepted | riggs-master/riggs-master/timed_commitments/src/basic_tc.rs:105-182 | for times below 2^32 a finished forced opening, message or none, is accepted exactly with a short certificate |
| Counterexamples.ForcedOpeningRefused | riggs-master/riggs-master/timed_commitments/src/basic_tc.rs:105-182 | when the first nonce hashes to the prime 3 * 2^30 + 1, a forced opening of any commitment finishes and is refused |
| Counterexamples.ChallengeIsPrime | riggs-master/riggs-master/rsa/src/hash_to_prime/pocklington.rs:136-164 | that number, between the verifier's bound and the generator's, is prime |
| TimedCommitments.CheatingAgrees | riggs-master/riggs-master/timed_commitments/src/basic_tc.rs:126-148 | the trapdoor route ends exactly as the honest one: same message, same proof, same failures |
| TimedCommitments.ParamsGenerated | riggs-master/riggs-master/timed_commitments/src/basic_tc.rs:59-85 | parameters are generated exactly when the search finds a challenge; they satisfy y = x^(2^t) and verify exactly with a short certificate |
| TimedCommitments.CheatingParamsGenerated | riggs-master/riggs-master/timed_commitments/src/basic_tc.rs:69-78 | so do the order-holder's |
| TimedCommitments.LazyUnique | riggs-master/riggs-master/timed_commitments/src/lazy_tc.rs:225-257 | every commitment, well formed or not, has a single acceptable outcome |
| TimedCommitments.OpenedIsCommitted | riggs-master/riggs-master/timed_commitments/src/lazy_tc.rs:225-257 | an accepted message is the content of the Pedersen commitment |
| TimedCommitments.LazyComplete | riggs-master/riggs-master/timed_commitments/src/lazy_tc.rs:88-164 | commit, then self-open or force-open: both give the committed bytes, and the opening carries the Pedersen randomness |
| TimedCommitments.LazyForceAccepted | riggs-master/riggs-master/timed_commitments/src/lazy_tc.rs:108-257 | the exact verdict on a finished forced opening of any commitment: an error if the decrypted tail is no field element, otherwise accepted exactly with a short certificate |
| Counterexamples.LazyOpeningErrs | riggs-master/riggs-master/timed_commitments/src/lazy_tc.rs:108-257 | committing to the modulus in place of an opening: forcing open yields nothing, and verifying that is an error |
| TimedCommitments.LazyForceStops | riggs-master/riggs-master/timed_commitments/src/lazy_tc.rs:108-164 | exactly when forcing open finishes, and that it is an error exactly when the nonces run out |
| TimedCommitments.LazyCheatingAgrees | riggs-master/riggs-master/timed_commitments/src/lazy_tc.rs:166-223 | the trapdoor route of lazy commitments ends exactly as the honest one |
| Bytes.BERoundTrip | riggs-master/riggs-master/timed_commitments/src/lazy_tc.rs:43-52 | the fixed-width big-endian opening appended to a message is recovered |
| Settlement.PriceUnique | riggs-master/riggs-master/auction_house/src/house.rs:516-522 | the (k+1)-th highest bid is unique: independent of iteration order and tie-breaking |
| Settlement.WinnersPayLosersDont | riggs-master/riggs-master/auction_house/src/house.rs:516-522 | every winner bid at least the price, every loser at most, and some loser bid exactly it |
| Settlement.SelectedIsAdmissible | riggs-master/riggs-master/auction_house/src/house.rs:516-522 | any selection result gives exactly k winners and the (k+1)-th highest bid as price |
| Settlement.AdmissibleIsSelected | riggs-master/riggs-master/auction_house/src/house.rs:516-522 | every sale the rule allows is the result of some selection |
| Settlement.KPlusOnePrice | riggs-master/riggs-master/auction_house/src/house.rs:506-522 | the settlement stops exactly when there are not more bids than winners, and otherwise returns an admissible sale with k different winners |
| Settlement.Truthful | riggs-master/riggs-master/auction_house/src/house.rs:506-530 | against all opposing bids and all tie-breakings, bidding one's value is at least as good as any other bid |
| Settlement.NeverALoss | riggs-master/riggs-master/auction_house/src/house.rs:506-530 | bidding one's value never costs more than the item is worth (individual rationality) |
| LedgerSafety.WithdrawalDecided | riggs-master/riggs-master/auction_house/src/house.rs:312-338 | the check on residues holds exactly when the amount plus all active bids is within the balance |
| LedgerSafety.BidDecided | riggs-master/riggs-master/auction_house/src/house.rs:355-407 | the checks on residues hold exactly when rewards, bid and active bids together are within the balance |
| LedgerSafety.AcceptedBidFits | riggs-master/riggs-master/auction_house/src/house.rs:355-407 | an accepted bid is below 2^32 and fits the balance with rewards and all other active bids |
| LedgerSafety.BidKeeps | riggs-master/riggs-master/auction_house/src/house.rs:355-407 | an accepted bid keeps every account solvent and bid numbers dense and unshared |
| LedgerSafety.AcceptedOpeningBinds | riggs-master/riggs-master/auction_house/src/auction.rs:186-213 | a bid opened to a value was unopened before and committed to that value |
| LedgerSafety.ForceOpenTaken | riggs-master/riggs-master/auction_house/src/house.rs:466-488 | a forced opening, to a value or to nothing, is taken exactly for a present, unopened number whose opening verifies, by a known account that can hold the reward; what it changes and when it stops |
| LedgerSafety.SelfOpenTaken | riggs-master/riggs-master/auction_house/src/house.rs:409-433 | a self-opening is taken exactly for the account's own unopened number with an opening that verifies and a balance that can hold both rewards |
| LedgerSafety.SaleChargeable | riggs-master/riggs-master/auction_house/src/house.rs:524-530 | in a reachable state an admissible sale never charges a winner more than its committed bid, so `balance -= price` does not underflow |
| LedgerSafety.SettleKeeps | riggs-master/riggs-master/auction_house/src/house.rs:491-535 | a first settlement releases each bid once and keeps every account solvent |
| LedgerSafety.StepKeepsSound | riggs-master/riggs-master/auction_house/src/house.rs:287-535 | every operation keeps the invariant |
| LedgerSafety.RunsAreSound | riggs-master/riggs-master/auction_house/src/house.rs:287-535 | the invariant holds in every state of every run |
| LedgerSafety.EveryAccountSolvent | riggs-master/riggs-master/auction_house/src/house.rs:287-535 | in every run each balance covers the sum of unsettled committed bids, and the hidden total is that sum without wrap-around |
| LedgerSafety.SettlementSucceeds | riggs-master/riggs-master/auction_house/src/house.rs:491-535 | exactly when a first settlement succeeds in a reachable state |
| LedgerMoney.StepConserves | riggs-master/riggs-master/auction_house/src/house.rs:287-535 | every operation keeps the money equation |
| LedgerMoney.RunsConserve | riggs-master/riggs-master/auction_house/src/house.rs:298-338 | over every run: deposits less withdrawals are the balances, both rewards per unopened bid, the self-opening reward per force-opened bid, and price times winners per settlement |
| AuctionHouses.AuctionHouse.OpenAccount | riggs-master/riggs-master/auction_house/src/house.rs:287-296 | opens the next account with an empty balance |
| AuctionHouses.AuctionHouse.OpenAuction | riggs-master/riggs-master/auction_house/src/house.rs:340-353 | opens the next auction |
| AuctionHouses.AuctionHouse.AccountDeposit | riggs-master/riggs-master/auction_house/src/house.rs:298-310 | the whole new state after a deposit |
| AuctionHouses.AuctionHouse.AccountWithdrawal | riggs-master/riggs-master/auction_house/src/house.rs:312-338 | withdraws if the range proof of the rest verifies; errors leave the state as it was |
| AuctionHouses.AuctionHouse.AccountBid | riggs-master/riggs-master/auction_house/src/house.rs:355-407 | both range proofs, the duplicate checks, and the update of auction, bidder and account |
| AuctionHouses.AuctionHouse.AccountSelfOpen | riggs-master/riggs-master/auction_house/src/house.rs:409-433 | records the opening and credits both rewards |
| AuctionHouses.AuctionHouse.AccountForceOpen | riggs-master/riggs-master/auction_house/src/house.rs:466-488 | records the opening of the named bid and credits the named account |
| AuctionHouses.AuctionHouse.CollectBids | riggs-master/riggs-master/auction_house/src/house.rs:506-513 | the opened values by bidder; stops exactly on an unopened bid |
| AuctionHouses.AuctionHouse.ReleaseBids | riggs-master/riggs-master/auction_house/src/house.rs:524-527 | subtracts each bid of the auction from its bidder's total, once |
| AuctionHouses.AuctionHouse.ChargeWinners | riggs-master/riggs-master/auction_house/src/house.rs:528-530 | subtracts the price from each winner |
| AuctionHouses.AuctionHouse.CompleteKPlusOnePriceAuction | riggs-master/riggs-master/auction_house/src/house.rs:491-535 | settles by an admissible sale, or stops only for the stated causes |
| Clients.MirrorSum | riggs-master/riggs-master/auction_house/src/house.rs:154-174 | the client's running sum is the sum of its unsettled committed bids at the house |
| Clients.BidProposalMeetsHouse | riggs-master/riggs-master/auction_house/src/house.rs:99-152 | the client proposes exactly when the house's inequality holds, and proves its statement with an opening of the commitment the house computes |
| Clients.HonestBidAccepted | riggs-master/riggs-master/auction_house/src/house.rs:99-152 | the house accepts an honest proposal exactly when the commitment is new |
| Clients.HonestWithdrawal | riggs-master/riggs-master/auction_house/src/house.rs:239-263 | the client proposes a withdrawal exactly when the balance above active bids covers it, and the house then accepts |
| Clients.StepKeepsMirror | riggs-master/riggs-master/auction_house/src/house.rs:154-272 | every accepted operation can be confirmed, and confirming restores the mirror |
| Clients.JointRunsMirror | riggs-master/riggs-master/auction_house/src/house.rs:86-272 | in every joint run of house and client the client's balance, hidden total, bids, sum and opening are the house's, and no confirmation fails |
| ClientObjects.AccountPrivateState.Credit | riggs-master/riggs-master/auction_house/src/house.rs:176-192 | credits an opening reward or a deposit |
| ClientObjects.AccountPrivateState.ConfirmBid | riggs-master/riggs-master/auction_house/src/house.rs:154-174 | the whole new state after a confirmed bid |
| ClientObjects.AccountPrivateState.ConfirmAuctionWin | riggs-master/riggs-master/auction_house/src/house.rs:194-213 | pays the price and drops the bid |
| ClientObjects.AccountPrivateState.ConfirmAuctionLoss | riggs-master/riggs-master/auction_house/src/house.rs:215-232 | drops the bid from sums, commitment and map |
| ClientObjects.AccountPrivateState.ConfirmWithdrawal | riggs-master/riggs-master/auction_house/src/house.rs:265-272 | takes the amount off |
| SnarkAuctions.CountDecidesComplete | riggs-master/riggs-master/auction_house/src/snark_auction.rs:102-113 | equal counts mean that every accepted bid is opened |
| SnarkAuctions.StepForward | riggs-master/riggs-master/auction_house/src/snark_auction.rs:155-237 | one operation never moves the phase back and never changes an opening; after collection commitments are frozen |
| SnarkAuctions.PhasesMoveForward | riggs-master/riggs-master/auction_house/src/snark_auction.rs:102-237 | the same over every history on a clock that never goes back; Complete is final |
| SnarkAuctions.CompleteMeansAllOpened | riggs-master/riggs-master/auction_house/src/snark_auction.rs:102-113 | in every reachable state the last phase holds exactly when collection is over and all bids are opened |
| SnarkAuctions.Timetable | riggs-master/riggs-master/auction_house/src/snark_auction.rs:102-237 | in every reachable state, by the clock alone: a new proven bid is taken exactly before the end of collection, a valid opening of an accepted unopened bid as a self-opening exactly in the selfOpen ticks after it, and as a forced opening exactly from then on |
| SnarkAuctions.SnarkAuction.AcceptBid | riggs-master/riggs-master/auction_house/src/snark_auction.rs:155-178 | takes a new proven commitment during collection only, under the next number |
| SnarkAuctions.SnarkAuction.AcceptSelfOpening | riggs-master/riggs-master/auction_house/src/snark_auction.rs:180-193 | opens only from the end of collection to the end of self-opening; SnarkAuctions.Timetable gives the exact condition |
| SnarkAuctions.SnarkAuction.AcceptForceOpening | riggs-master/riggs-master/auction_house/src/snark_auction.rs:195-208 | opens only after the end of self-opening; SnarkAuctions.Timetable gives the exact condition |
| SnarkAuctions.SnarkAuction.Open | riggs-master/riggs-master/auction_house/src/snark_auction.rs:210-237 | records an opening of an accepted, unopened bid |
| SnarkAuctions.CompleteKPlusOnePriceAuction | riggs-master/riggs-master/auction_house/src/snark_house.rs:511-545 | refused outside the last phase; in it no lookup fails, only too few bids stop it, and the sale is admissible |
| Worlds.PlaceBidShadows | _wsl_sync/main.rs:1379-1410 | an accepted bid keeps all indices equal to the house's hidden state |
| Worlds.SelfOpenReveals | _wsl_sync/main.rs:219-261 | a self-opening reveals exactly its bid, which was unrevealed |
| Worlds.ForceSettleReveals | _wsl_sync/house.rs:410-454 | booking leaves a revealed bid alone and otherwise reveals exactly the named bid |
| Worlds.CheatingReveals | _wsl_sync/house.rs:484-550 | the trapdoor opening reveals exactly its bid, which was unrevealed |
| WorldAnswers.SelfOpenAnswers | _wsl_sync/main.rs:219-261 | in every safe world a self-opening goes through exactly for an active unrevealed bid asked for with its committed amount, if the opening kept with it verifies and both rewards fit |
| WorldAnswers.PlaceBidAnswers | _wsl_sync/main.rs:1212-1410 | in every safe world an honest bid is taken exactly from a known account without a bid in a known auction, if rewards, bid and committed bids are within the balance, both proofs verify and the commitment is new; what the world shows of it afterwards |
| WorldAnswers.PlacedThenOpened | _wsl_sync/main.rs:219-261 | a bid just placed can be opened by its bidder and the rewards come back |
| WorldAnswers.BookingAnswers | _wsl_sync/house.rs:410-454 | booking a prepared forced opening goes through exactly if the bid is revealed already or the house takes the opening, which must be to the committed amount, and the reward fits |
| WorldAnswers.CheatAnswers | _wsl_sync/house.rs:484-550 | the trapdoor opening goes through exactly for an active unrevealed bid whose opening to the committed amount the house takes |
| WorldAnswers.RoundSettles | _wsl_sync/main.rs:2037-2066 | with more bids revealed than winners and none pending, each winner pays the price at the house and at its client, nobody else pays, and no bid of the auction stays active anywhere |
| WorldAnswers.DepositAnswers | _wsl_sync/main.rs:787-806 | a deposit is taken exactly for a known account whose balance can hold it |
| WorldAnswers.PayOutAnswers | _wsl_sync/main.rs:1462-1486 | a withdrawal is paid exactly when the balance above the committed bids covers it and the proof verifies |
| Worlds.PendingMeansUnopened | _wsl_sync/house.rs:668-682 | nothing pending exactly when all the house's bids are opened |
| Worlds.RevealedAreOpened | _wsl_sync/main.rs:2046-2055 | with nothing pending the revealed count is the number of bids a settlement sees |
| WorldClients.ClosingStops | _wsl_sync/main.rs:2037-2066 | ending a round stops the program exactly when more bids are revealed than there are winners while another is unrevealed; otherwise house and clients all go through |
| RoundEnd.RoundEndStops | _wsl_sync/main.rs:2037-2066 | a concrete history of six requests reaches a state in which ending the round stops the server |
| WorldClients.RoundConfirms | _wsl_sync/house.rs:553-580 | no client's confirmation of a first settlement fails |
| WorldObjects.WorldObject.CreateAccount | _wsl_sync/main.rs:679-693 | the whole new state of house and clients |
| WorldObjects.WorldObject.DepositTo | _wsl_sync/main.rs:787-806 | the whole new state of house and client |
| WorldObjects.WorldObject.WithdrawFrom | _wsl_sync/main.rs:1462-1486 | the client proposes, the house pays, the client confirms: the whole new state |
| WorldObjects.WorldObject.PlaceBid | _wsl_sync/main.rs:1212-1410 | the client proposes, the house takes the bid, the client confirms: the whole new state of house, client and indices |
| WorldObjects.WorldObject.RunSelfOpen | _wsl_sync/main.rs:219-261 | the whole new state of house, client and indices, errors leaving none |
| WorldObjects.WorldObject.ForceOpenPrepare | _wsl_sync/house.rs:376-405 | in every reachable world there is a job exactly for an active bid, with the house's commitment, amount and number of it |
| WorldObjects.WorldObject.ForceOpenSettle | _wsl_sync/house.rs:410-454 | the whole new state of house, client and indices; idempotent on revealed bids |
| WorldObjects.WorldObject.ApplyForceOpenCheating | _wsl_sync/house.rs:484-550 | the whole new state of house, client and indices |
| WorldObjects.WorldObject.ListPendingReveals | _wsl_sync/house.rs:668-682 | the loop lists exactly the unrevealed bids |
| WorldObjects.WorldObject.FinalizePrivateAfterSettlement | _wsl_sync/house.rs:553-580 | the loop goes through exactly when every bidder of the auction can confirm, and then each has |
| WorldObjects.WorldObject.AccountBalances | _wsl_sync/house.rs:310-331 | total, available and frozen amounts are the house's balance, what exceeds the committed bids, and the committed bids |
| Reveals.TaskExclusive | _wsl_sync/main.rs:172-204 | each step of a reveal task keeps claims exclusive; what the steps achieve together is RevealRuns.TeacherReveals and BruteReveals |
| Reveals.BookTask | _wsl_sync/main.rs:2371-2466 | booking credits the reward exactly if the bid was not revealed before |
| Reveals.MoveKeepsSafe | _wsl_sync/main.rs:92-261 | every move of every task and handler keeps the invariant |
| Reveals.ReachedSafe | _wsl_sync/main.rs:92-261 | the invariant holds under every interleaving |
| Reveals.OneHolder | _wsl_sync/main.rs:172-204 | between a fresh claim and its release at most one task per auction and bidder; a mark in flight is held or was left by a dropped task |
| Reveals.RewardedOnce | _wsl_sync/main.rs:172-261 | the opening reward is credited exactly once if the bid is revealed and never otherwise; a cache entry implies revealed; the house agrees |
| RevealRuns.TeacherReveals | _wsl_sync/main.rs:92-216 | a teacher task run alone on an active, unrevealed, unclaimed bid whose solution the house accepts ends with the bid revealed and opened at the house to the committed amount, one credit, the amount cached and no claim left |
| RevealRuns.BruteReveals | _wsl_sync/main.rs:2312-2466 | a brute-force task does the same, computing first and claiming to book |
| RevealRuns.EveryTaskEnds | _wsl_sync/main.rs:172-216 | from every safe state, run alone, a task ends within nine steps unless the house stops, and its own claim is gone |
| RevealRuns.CacheValues | _wsl_sync/main.rs:206-216 | under every interleaving a cached value is the solution of the house's commitment for that bid, the recorded opening is the committed amount, and the two are equal exactly when the solution is right |
| Reveals.ClientsMirror | _wsl_sync/main.rs:219-261 | under every interleaving each client mirrors its account, and the frozen amount is exactly the committed bids |
| Reveals.JobsAreRight | _wsl_sync/house.rs:376-405 | under every interleaving a forced opening works on the house's commitment, amount and number of an active bid |
| WorldClients.StepClients | _wsl_sync/main.rs:219-261 | if every client reacts to a house operation as prescribed, all of them go on mirroring their accounts |
| WorldClients.ClosedClients | _wsl_sync/house.rs:553-580 | after a round every client mirrors its account: winners have paid, and no bid of the auction stays active |
| WorldClients.EnrolledClients | _wsl_sync/main.rs:679-693 | a new account and its client agree from the first deposit on |
| WorldClients.PreparedIsHouses | _wsl_sync/house.rs:376-405 | a forced opening can be prepared exactly for an active bid, with the house's commitment, amount and number |
| WorldClients.BalancesShown | _wsl_sync/house.rs:310-331 | the shown balance is the house's, the frozen part is exactly the committed bids, and the difference is not negative |
| Reveals.IndicesAgree | _wsl_sync/main.rs:1379-1410 | under every interleaving the indices are the house's own, dense and unshared |
| Reveals.RoundStops | _wsl_sync/main.rs:1934-2066 | the exact condition under which ending a round stops the server, in every reachable state |
| HashChain.PayloadUnique | _wsl_sync/blockchain.rs:53-74 | the separated payload determines every hashed field even if transactions contain the separator |
| HashChain.LastHashBinds | _wsl_sync/blockchain.rs:146-212 | two valid chains of equal length with the same last hash agree on every hashed field of every block, or two payloads collide |
| HashChain.TamperingDetected | _wsl_sync/blockchain.rs:146-212 | replacing a block before the last by one that differs in a hashed field invalidates the chain, or two payloads collide |
| HashChain.DifficultyIsBound | _wsl_sync/blockchain.rs:76-82 | a hexadecimal hash meets a difficulty exactly when, read as a number, it is below 16^(length - difficulty) |
| HashChain.ChainHasWork | _wsl_sync/blockchain.rs:146-212 | every block hash of a valid chain is below that bound for its difficulty |
| HashChain.DemoBlockchain.Mine | _wsl_sync/blockchain.rs:98-103 | the loop seals the block with the least nonce that meets the difficulty |
| HashChain.DemoBlockchain.MineGenesis | _wsl_sync/blockchain.rs:94-113 | leaves a valid chain of one block and nothing pending |
| HashChain.DemoBlockchain.AddPending | _wsl_sync/blockchain.rs:115-117 | queues a transaction and leaves the chain alone |
| HashChain.DemoBlockchain.MinePendingBlock | _wsl_sync/blockchain.rs:119-144 | appends a block of exactly the pending transactions and keeps the chain valid and numbered |
| HashChain.DemoBlockchain.IsChainValid | _wsl_sync/blockchain.rs:146-212 | the loop decides validity, both ways |
| Limbs.FoldLimbs | riggs-master/riggs-master/rsa/src/bigint/mod.rs:43-49 | the fold from the last limb computes the number the limbs stand for |
| Limbs.NatToLimbs | riggs-master/riggs-master/rsa/src/bigint/mod.rs:51-79 | the shifting loop computes the limbs; exactly when it stops and exactly when it is an error |
| Limbs.LimbsRoundTrip | riggs-master/riggs-master/rsa/src/bigint/mod.rs:41-79 | every number that fits comes back from its limbs, each within the width |
| Limbs.NumberRoundTrip | riggs-master/riggs-master/rsa/src/bigint/mod.rs:41-79 | limbs within the width come back from their number |
| Limbs.FitNatToLimbs | riggs-master/riggs-master/rsa/src/bigint/mod.rs:81-84 | never an error: it stops exactly for negative numbers, a zero width or one beyond capacity, and otherwise round-trips |

## Left out

- Pocklington.AcceptedIsPrime: that the three-base test {2, 7, 61} is right about every number below 2^31 is a hypothesis about the one terminal number, a published computation not repeated here.
- CertificateGeneration.HashToPrime: the candidate of each nonce is an arbitrary function; how its number of bits is derived with floating-point logarithms is not modelled.
- RangeProof.Completeness: stated for the runs in which the prover finishes, that is, whose challenges have inverses (`RangeProof.ProverFinishes`).
- RangeProof.Verify: a build without debug assertions goes on after a wrong number of rounds; only the stop is modelled.
- TimedCommitments.BasicForceAccepted: for times below 2^32, because forcing open cuts the time to 32 bits; `BasicForceVerdict` covers the others.
- TimedCommitments.LazyUnique: that a verified proof is of a true claim is a hypothesis on the two openings, since roots cannot be excluded by proof.
- Settlement.SelectNth: stands for the standard library's unstable selection; only its contract is used.
- AuctionHouses.AuctionHouse.AccountBid: an auction is held by value inside the house's map, not as a separate object; the house owns it alone.
- LedgerSafety.RunsAreSound: settling one auction twice is excluded, because the removal of a settled auction is commented out in the code; commitments are given by residues.
- LedgerMoney.RunsConserve: rewards are fixed per auction; u32 overflow ends a run instead of wrapping around, and the state a caught panic would leave behind is not modelled.
- Clients.HonestBidAccepted: house and auction use the same Pedersen parameters, as the code's own note demands.
- SnarkAuctions.CompleteKPlusOnePriceAuction: the accounts of `snark_house.rs`, whose operations repeat `house.rs`, are not modelled; that bidders hold accepted bids is its precondition.
- Reveals.ReachedSafe: phase labels, rankings and events are not modelled; handlers may act in any phase, so the theorems cover every label.
- WorldObjects.WorldObject.FinalizePrivateAfterSettlement: which bidders come before a failing confirmation is left open, since none fails in a reachable world.
- WorldObjects.WorldObject.PlaceBid: the reserve price, the previous round's high bid and their added proofs only refuse more.
- Worlds.CloseRound: a client's bid released early by `try_release_loser_escrow` would end the client-side loop with an error; that early release is not a step.
- HashChain.DemoBlockchain.Mine: a nonce that meets the difficulty is taken to exist; how times are printed and JSON values are sorted and serialized is an arbitrary function.
- ExponentiationProofs.Verify: challenges come from an arbitrary hash of base, claimed power, time and nonce; byte padding is not modelled.
- `accept_self_opening_optimized` and `account_self_open_optimized`: they accept an opened bid again, so they are not steps of the ledger.
- The separate `settle` request: it settles an auction outside the round protocol and, after a round, a second time.
- `rp_house.rs`, `rp_auction.rs`, `baseline_house.rs`, `baseline_auction.rs` and the fixed-price dummies: variants or placeholders of what is modelled.
- Circuits, SNARK back ends, curve and hash internals, `hash_to_variable_output_length`, rejection sampling without certificates.
- The squaring loops in `_wsl_sync/house.rs` that only report progress, attack demonstrations, added lower-bound proofs, timing.
- HTTP routing, websockets, files, events, Solidity and PARI: plumbing and foreign calls; factoring is an oracle with its defining property.

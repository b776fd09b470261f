/** The hash-linked demonstration chain (_wsl_sync/blockchain.rs). */
module HashChain {
  import opened Outcomes

  /** How times are printed, transactions serialized canonically, and payloads hashed. */
  datatype Codec<!Time, !Tx> = Codec(show: Time -> string, json: seq<Tx> -> string, sha: string -> string)

  /** Printed times and hexadecimal digests contain no separator; transactions may. */
  ghost predicate Plain<Time(!new), Tx>(c: Codec<Time, Tx>)
  {
    (forall t: Time :: '|' !in c.show(t)) && (forall s: string :: '|' !in c.sha(s))
  }

  datatype Block<Time, Tx> = Block(
    index: nat, timestamp: Time, transactions: seq<Tx>, previousHash: string, nonce: nat, difficulty: nat, hash: string)

  function GenesisPrevious(): string
  {
    seq(64, _ => '0')
  }

  // ----------------------------------------------------------------- payloads

  function Digit(d: nat): char
    requires d < 10
  {
    "0123456789"[d]
  }

  function Decimal(n: nat): (r: string)
    ensures '|' !in r
  {
    if n < 10 then [Digit(n)] else Decimal(n / 10) + [Digit(n % 10)]
  }

  function DigitValue(c: char): nat
  {
    if '0' <= c <= '9' then (c as int) - ('0' as int) else 0
  }

  function FromDecimal(s: string): nat
  {
    if s == [] then 0 else FromDecimal(s[..|s| - 1]) * 10 + DigitValue(s[|s| - 1])
  }

  lemma {:induction false} DecimalReadBack(n: nat)
    ensures FromDecimal(Decimal(n)) == n
  {
    if n >= 10 {
      var s := Decimal(n);
      assert s[..|s| - 1] == Decimal(n / 10);
      DecimalReadBack(n / 10);
    }
  }

  function Payload<Time, Tx>(c: Codec<Time, Tx>, b: Block<Time, Tx>): string
  {
    Decimal(b.index) + "|" + c.show(b.timestamp) + "|" + c.json(b.transactions) + "|" + b.previousHash + "|" + Decimal(b.nonce) + "|" + Decimal(b.difficulty)
  }

  function CalculateHash<Time, Tx>(c: Codec<Time, Tx>, b: Block<Time, Tx>): string
  {
    c.sha(Payload(c, b))
  }

  /** Two texts split at their first separator. */
  lemma FirstBar(a: string, x: string, b: string, y: string)
    requires '|' !in a && '|' !in b && a + "|" + x == b + "|" + y
    ensures a == b && x == y
  {
    var s, r := a + "|" + x, b + "|" + y;
    assert s[|a|] == '|' && r[|b|] == '|';
    assert forall k :: 0 <= k < |a| ==> s[k] == a[k] != '|';
    assert forall k :: 0 <= k < |b| ==> r[k] == b[k] != '|';
    assert |a| == |b|;
    assert s[..|a|] == a && r[..|a|] == b;
    assert s[|a| + 1..] == x && r[|a| + 1..] == y;
  }

  /** Two texts split at their last separator. */
  lemma LastBar(x: string, a: string, y: string, b: string)
    requires '|' !in a && '|' !in b && x + "|" + a == y + "|" + b
    ensures x == y && a == b
  {
    var s, r := x + "|" + a, y + "|" + b;
    assert s[|x|] == '|' && r[|y|] == '|';
    assert forall k :: |x| < k < |s| ==> s[k] == a[k - |x| - 1] != '|';
    assert forall k :: |y| < k < |r| ==> r[k] == b[k - |y| - 1] != '|';
    assert |x| == |y|;
    assert s[..|x|] == x && r[..|x|] == y;
    assert s[|x| + 1..] == a && r[|x| + 1..] == b;
  }

  /** The blocks agree on everything that is hashed: times as printed, transactions as serialized. */
  predicate SameHashed<Time, Tx>(c: Codec<Time, Tx>, b: Block<Time, Tx>, d: Block<Time, Tx>)
  {
    && b.index == d.index && c.show(b.timestamp) == c.show(d.timestamp) && c.json(b.transactions) == c.json(d.transactions)
    && b.previousHash == d.previousHash && b.nonce == d.nonce && b.difficulty == d.difficulty
  }

  /** The payload determines every hashed field, even when the transactions contain separators. */
  lemma PayloadUnique<Time(!new), Tx>(c: Codec<Time, Tx>, b: Block<Time, Tx>, d: Block<Time, Tx>)
    requires Plain(c) && '|' !in b.previousHash && '|' !in d.previousHash
    ensures Payload(c, b) == Payload(c, d) <==> SameHashed(c, b, d)
  {
    if Payload(c, b) == Payload(c, d) {
      PayloadParts(Decimal(b.index), c.show(b.timestamp), c.json(b.transactions), b.previousHash, Decimal(b.nonce), Decimal(b.difficulty),
                   Decimal(d.index), c.show(d.timestamp), c.json(d.transactions), d.previousHash, Decimal(d.nonce), Decimal(d.difficulty));
      DecimalReadBack(b.index);
      DecimalReadBack(d.index);
      DecimalReadBack(b.nonce);
      DecimalReadBack(d.nonce);
      DecimalReadBack(b.difficulty);
      DecimalReadBack(d.difficulty);
    }
  }

  lemma PayloadParts(i: string, t: string, tx: string, p: string, n: string, f: string,
                     i': string, t': string, tx': string, p': string, n': string, f': string)
    requires '|' !in i && '|' !in t && '|' !in p && '|' !in n && '|' !in f
    requires '|' !in i' && '|' !in t' && '|' !in p' && '|' !in n' && '|' !in f'
    requires i + "|" + t + "|" + tx + "|" + p + "|" + n + "|" + f == i' + "|" + t' + "|" + tx' + "|" + p' + "|" + n' + "|" + f'
    ensures i == i' && t == t' && tx == tx' && p == p' && n == n' && f == f'
  {
    LastBar(i + "|" + t + "|" + tx + "|" + p + "|" + n, f, i' + "|" + t' + "|" + tx' + "|" + p' + "|" + n', f');
    LastBar(i + "|" + t + "|" + tx + "|" + p, n, i' + "|" + t' + "|" + tx' + "|" + p', n');
    LastBar(i + "|" + t + "|" + tx, p, i' + "|" + t' + "|" + tx', p');
    assert i + "|" + t + "|" + tx == i + "|" + (t + "|" + tx);
    assert i' + "|" + t' + "|" + tx' == i' + "|" + (t' + "|" + tx');
    FirstBar(i, t + "|" + tx, i', t' + "|" + tx');
    FirstBar(t, tx, t', tx');
  }

  // ----------------------------------------------------------------- validity

  predicate MeetsDifficulty(hash: string, difficulty: nat)
  {
    difficulty <= |hash| && forall i :: 0 <= i < difficulty ==> hash[i] == '0'
  }

  /** The value of a hexadecimal digit as digests are printed. */
  function HexDigit(c: char): nat
  {
    if '0' <= c <= '9' then (c as int) - ('0' as int)
    else if 'a' <= c <= 'f' then 10 + (c as int) - ('a' as int)
    else 0
  }

  predicate Hexadecimal(s: string)
  {
    forall i :: 0 <= i < |s| ==> '0' <= s[i] <= '9' || 'a' <= s[i] <= 'f'
  }

  /** The number a hexadecimal text stands for. */
  function HexValue(s: string): nat
  {
    if s == [] then 0 else HexDigit(s[0]) * Sixteen(|s| - 1) + HexValue(s[1..])
  }

  function Sixteen(e: nat): (r: nat)
    ensures r > 0
  {
    if e == 0 then 1 else 16 * Sixteen(e - 1)
  }

  lemma {:induction false} SixteenGrows(a: nat, b: nat)
    requires a <= b
    ensures Sixteen(a) <= Sixteen(b)
    decreases b
  {
    if a < b {
      SixteenGrows(a, b - 1);
    }
  }

  lemma DigitTimes(d: nat, top: nat, rest: nat)
    requires d < 16 && rest < top
    ensures d * top + rest < 16 * top
    ensures d >= 1 ==> top <= d * top + rest
    ensures d == 0 ==> d * top + rest == rest
  {
    if d >= 1 {
      assert d * top == top + (d - 1) * top;
    }
    assert 16 * top == d * top + (16 - d) * top;
  }

  lemma {:induction false} HexBounded(s: string)
    ensures HexValue(s) < Sixteen(|s|)
  {
    if s != [] {
      HexBounded(s[1..]);
      DigitTimes(HexDigit(s[0]), Sixteen(|s| - 1), HexValue(s[1..]));
    }
  }

  /** Difficulty in numbers: the hash, read as hexadecimal, lies below `16^(length - difficulty)`. */
  lemma {:induction false} DifficultyIsBound(hash: string, difficulty: nat)
    requires Hexadecimal(hash)
    ensures MeetsDifficulty(hash, difficulty) <==> difficulty <= |hash| && HexValue(hash) < Sixteen(|hash| - difficulty)
  {
    HexBounded(hash);
    if 0 < difficulty <= |hash| {
      var rest := hash[1..];
      DifficultyIsBound(rest, difficulty - 1);
      HexBounded(rest);
      DigitTimes(HexDigit(hash[0]), Sixteen(|hash| - 1), HexValue(rest));
      SixteenGrows(|hash| - difficulty, |hash| - 1);
      assert MeetsDifficulty(hash, difficulty) <==> hash[0] == '0' && MeetsDifficulty(rest, difficulty - 1) by {
        assert forall i :: 0 <= i < |rest| ==> rest[i] == hash[i + 1];
        assert forall i :: 1 <= i < |hash| ==> hash[i] == rest[i - 1];
      }
    }
  }

  predicate BlockValid<Time, Tx>(c: Codec<Time, Tx>, b: Block<Time, Tx>)
  {
    CalculateHash(c, b) == b.hash && MeetsDifficulty(b.hash, b.difficulty)
  }

  /** A first block with index 0, and every block linked to the one before it. */
  predicate ChainValid<Time, Tx>(c: Codec<Time, Tx>, chain: seq<Block<Time, Tx>>)
  {
    && chain != [] && chain[0].index == 0 && chain[0].previousHash == GenesisPrevious()
    && (forall i :: 0 <= i < |chain| ==> BlockValid(c, chain[i]))
    && (forall i :: 1 <= i < |chain| ==> chain[i].previousHash == chain[i - 1].hash)
  }

  /** Every block of a valid chain has its work: its hash is that much below what its length allows. */
  lemma ChainHasWork<Time(!new), Tx>(c: Codec<Time, Tx>, chain: seq<Block<Time, Tx>>, i: nat)
    requires ChainValid(c, chain) && i < |chain| && (forall s: string :: Hexadecimal(c.sha(s)))
    ensures chain[i].difficulty <= |chain[i].hash|
    ensures HexValue(chain[i].hash) < Sixteen(|chain[i].hash| - chain[i].difficulty)
    ensures chain[i].hash == c.sha(Payload(c, chain[i]))
  {
    hide HexValue, MeetsDifficulty, Payload;
    assert BlockValid(c, chain[i]);
    assert Hexadecimal(c.sha(Payload(c, chain[i])));
    DifficultyIsBound(chain[i].hash, chain[i].difficulty);
  }

  lemma NoBarBefore<Time(!new), Tx>(c: Codec<Time, Tx>, chain: seq<Block<Time, Tx>>, i: nat)
    requires Plain(c) && ChainValid(c, chain) && i < |chain|
    ensures '|' !in chain[i].previousHash
  {
    if i > 0 {
      assert BlockValid(c, chain[i - 1]);
    }
  }

  /** Two payloads with the same digest. */
  ghost predicate Collision<Time, Tx>(c: Codec<Time, Tx>, p: string, q: string)
  {
    p != q && c.sha(p) == c.sha(q)
  }

  /**
   * Binding: two valid chains of the same length that end in the same hash agree on every hashed field of every
   * block, or else exhibit two different payloads with the same digest.
   */
  lemma {:induction false} LastHashBinds<Time(!new), Tx>(c: Codec<Time, Tx>, x: seq<Block<Time, Tx>>, y: seq<Block<Time, Tx>>)
    returns (p: string, q: string)
    requires Plain(c) && ChainValid(c, x) && ChainValid(c, y) && |x| == |y| && x[|x| - 1].hash == y[|y| - 1].hash
    ensures Collision(c, p, q) || forall i :: 0 <= i < |x| ==> SameHashed(c, x[i], y[i]) && x[i].hash == y[i].hash
    decreases |x|
  {
    hide *;
    var n := |x| - 1;
    LastBlock(c, x);
    LastBlock(c, y);
    PayloadUnique(c, x[n], y[n]);
    p, q := Payload(c, x[n]), Payload(c, y[n]);
    if p != q {
      CollisionFound(c, x[n], y[n]);
    } else if n > 0 {
      SamePrevious(c, x[n], y[n]);
      p, q := LastHashBinds(c, x[..n], y[..n]);
    }
  }

  lemma LastBlock<Time(!new), Tx>(c: Codec<Time, Tx>, x: seq<Block<Time, Tx>>)
    requires Plain(c) && ChainValid(c, x)
    ensures x != []
    ensures var n := |x| - 1;
      && CalculateHash(c, x[n]) == x[n].hash && '|' !in x[n].previousHash
      && (n > 0 ==> ChainValid(c, x[..n]) && x[n].previousHash == x[..n][n - 1].hash)
  {
    hide CalculateHash, MeetsDifficulty;
    assert BlockValid(c, x[|x| - 1]);
    NoBarBefore(c, x, |x| - 1);
  }

  lemma CollisionFound<Time, Tx>(c: Codec<Time, Tx>, b: Block<Time, Tx>, d: Block<Time, Tx>)
    requires CalculateHash(c, b) == CalculateHash(c, d) && Payload(c, b) != Payload(c, d)
    ensures Collision(c, Payload(c, b), Payload(c, d))
  {
    hide Payload;
  }

  lemma SamePrevious<Time, Tx>(c: Codec<Time, Tx>, b: Block<Time, Tx>, d: Block<Time, Tx>)
    requires SameHashed(c, b, d)
    ensures b.previousHash == d.previousHash
  {
  }

  /** Replacing any block but the last by one that differs in a hashed field breaks the chain, unless digests collide. */
  lemma TamperingDetected<Time(!new), Tx>(c: Codec<Time, Tx>, chain: seq<Block<Time, Tx>>, i: nat, b: Block<Time, Tx>)
    returns (p: string, q: string)
    requires Plain(c) && ChainValid(c, chain) && i < |chain| - 1 && ChainValid(c, chain[i := b])
    ensures Collision(c, p, q) || SameHashed(c, chain[i], b)
  {
    p, q := LastHashBinds(c, chain, chain[i := b]);
  }

  // -------------------------------------------------------------------- mining

  /** A block not yet mined. */
  function Template<Time, Tx>(index: nat, timestamp: Time, transactions: seq<Tx>, previousHash: string, difficulty: nat): Block<Time, Tx>
  {
    Block(index, timestamp, transactions, previousHash, 0, difficulty, "")
  }

  predicate Meets<Time, Tx>(c: Codec<Time, Tx>, b: Block<Time, Tx>, nonce: nat)
  {
    MeetsDifficulty(CalculateHash(c, b.(nonce := nonce)), b.difficulty)
  }

  /** The stored hash is not part of what is hashed. */
  lemma HashUnhashed<Time, Tx>(c: Codec<Time, Tx>, b: Block<Time, Tx>, hash: string)
    ensures CalculateHash(c, b.(hash := hash)) == CalculateHash(c, b)
  {
  }

  /** Some nonce meets the difficulty. */
  ghost predicate Mineable<Time, Tx>(c: Codec<Time, Tx>, b: Block<Time, Tx>)
  {
    exists nonce: nat :: Meets(c, b, nonce)
  }

  /** Every block carries its position. */
  predicate Numbered<Time, Tx>(chain: seq<Block<Time, Tx>>)
  {
    forall i :: 0 <= i < |chain| ==> chain[i].index == i
  }

  // ---------------------------------------------------------------- the object

  class DemoBlockchain<Time, Tx> {
    const codec: Codec<Time, Tx>
    const difficulty: nat
    var chain: seq<Block<Time, Tx>>
    var pending: seq<Tx>

    constructor (codec: Codec<Time, Tx>, difficulty: nat)
      ensures this.codec == codec && this.difficulty == if difficulty == 0 then 1 else difficulty
      ensures chain == [] && pending == []
    {
      this.codec := codec;
      this.difficulty := if difficulty == 0 then 1 else difficulty;
      chain, pending := [], [];
    }

    /** The block sealed with the first nonce that meets the difficulty; one is taken to exist. */
    method Mine(index: nat, timestamp: Time, transactions: seq<Tx>, previousHash: string) returns (b: Block<Time, Tx>)
      requires Mineable(codec, Template(index, timestamp, transactions, previousHash, difficulty))
      ensures BlockValid(codec, b)
      ensures b.(nonce := 0, hash := "") == Template(index, timestamp, transactions, previousHash, difficulty)
      ensures forall m: nat :: m < b.nonce ==> !Meets(codec, Template(index, timestamp, transactions, previousHash, difficulty), m)
    {
      hide CalculateHash, MeetsDifficulty;
      var block := Template(index, timestamp, transactions, previousHash, difficulty);
      ghost var goal: nat :| Meets(codec, block, goal);
      var nonce := 0;
      var hash := CalculateHash(codec, block.(nonce := nonce));
      while !MeetsDifficulty(hash, difficulty)
        invariant nonce <= goal
        invariant hash == CalculateHash(codec, block.(nonce := nonce))
        invariant forall m: nat :: m < nonce ==> !Meets(codec, block, m)
        decreases goal - nonce
      {
        assert !Meets(codec, block, nonce);
        nonce := nonce + 1;
        hash := CalculateHash(codec, block.(nonce := nonce));
      }
      b := block.(nonce := nonce, hash := hash);
      HashUnhashed(codec, block.(nonce := nonce), hash);
    }

    method MineGenesis(timestamp: Time)
      requires Mineable(codec, Template(0, timestamp, [], GenesisPrevious(), difficulty))
      modifies this
      ensures |chain| == 1 && pending == [] && ChainValid(codec, chain) && Numbered(chain)
      ensures chain[0].(nonce := 0, hash := "") == Template(0, timestamp, [], GenesisPrevious(), difficulty)
    {
      chain, pending := [], [];
      var b := Mine(0, timestamp, [], GenesisPrevious());
      chain := chain + [b];
    }

    method AddPending(tx: Tx)
      modifies this
      ensures pending == old(pending) + [tx] && chain == old(chain)
    {
      pending := pending + [tx];
    }

    /** Seals the pending transactions in a new block; with none pending, or no block yet, nothing changes. */
    method MinePendingBlock(timestamp: Time) returns (ok: bool)
      requires pending != [] && chain != [] ==>
        Mineable(codec, Template(chain[|chain| - 1].index + 1, timestamp, pending, chain[|chain| - 1].hash, difficulty))
      modifies this
      ensures ok <==> old(pending) != [] && old(chain) != []
      ensures !ok ==> chain == old(chain) && pending == old(pending)
      ensures ok ==> pending == [] && |chain| == |old(chain)| + 1 && chain[..|old(chain)|] == old(chain)
      ensures ok ==> var last, b := old(chain)[|old(chain)| - 1], chain[|old(chain)|];
        b.(nonce := 0, hash := "") == Template(last.index + 1, timestamp, old(pending), last.hash, difficulty)
      ensures ok && ChainValid(codec, old(chain)) ==> ChainValid(codec, chain)
      ensures ok && Numbered(old(chain)) ==> Numbered(chain)
    {
      hide MeetsDifficulty, CalculateHash;
      if pending == [] || chain == [] {
        return false;
      }
      var last := chain[|chain| - 1];
      var b := Mine(last.index + 1, timestamp, pending, last.hash);
      assert b.previousHash == last.hash && b.index == last.index + 1;
      pending := [];
      chain := chain + [b];
      return true;
    }

    method IsChainValid() returns (ok: bool)
      ensures ok <==> ChainValid(codec, chain)
    {
      hide MeetsDifficulty, CalculateHash;
      if chain == [] {
        return false;
      }
      var genesis := chain[0];
      if genesis.index != 0 || genesis.previousHash != GenesisPrevious() || !BlockValid(codec, genesis) {
        return false;
      }
      var i := 1;
      while i < |chain|
        invariant 1 <= i <= |chain|
        invariant forall j :: 0 <= j < i ==> BlockValid(codec, chain[j])
        invariant forall j :: 1 <= j < i ==> chain[j].previousHash == chain[j - 1].hash
      {
        if chain[i].previousHash != chain[i - 1].hash || !BlockValid(codec, chain[i]) {
          return false;
        }
        i := i + 1;
      }
      return true;
    }
  }
}

/** seaplane-dynamo/dynamodb/shard.go: the bucket of a document in the sharded time index. */
module Shard {
  import opened Common
  import opened LookbackWindows

  function Digit(d: nat): char
    requires d < 10
  {
    ('0' as int + d) as char
  }

  // strconv.FormatUint(n, 10), and fmt.Sprintf("%d", n)
  function Decimal(n: nat): string {
    if n < 10 then [Digit(n)] else Decimal(n / 10) + [Digit(n % 10)]
  }

  function StripHyphens(s: string): string {
    if s == "" then ""
    else if s[0] == '-' then StripHyphens(s[1..])
    else [s[0]] + StripHyphens(s[1..])
  }

  function HexDigit(c: char): Option<nat> {
    if '0' <= c <= '9' then Some(c as nat - '0' as nat)
    else if 'a' <= c <= 'f' then Some(c as nat - 'a' as nat + 10)
    else if 'A' <= c <= 'F' then Some(c as nat - 'A' as nat + 10)
    else None
  }

  // strconv.ParseUint(s, 16, 64) on at most sixteen characters
  function ParseHex(s: string): Option<nat> {
    if s == "" then Some(0)
    else
      match (ParseHex(s[..|s| - 1]), HexDigit(s[|s| - 1]))
      case (Some(high), Some(low)) => Some(16 * high + low)
      case _ => None
  }

  function ComputeShard(documentID: string, shardCount: int): string {
    var n := if shardCount <= 0 then GSI_SHARD_COUNT else shardCount;
    var stripped := StripHyphens(documentID);
    if |stripped| < 8 then "0"
    else match ParseHex(stripped[..8])
      case None => "0"
      case Some(v) => Decimal(v % n)
  }

  function ComputeShardDefault(documentID: string): string {
    ComputeShard(documentID, GSI_SHARD_COUNT)
  }

  lemma {:induction false} DecimalIsInjective(a: nat, b: nat)
    requires Decimal(a) == Decimal(b)
    ensures a == b
  {
    var s, t := Decimal(a), Decimal(b);
    assert s[|s| - 1] == Digit(a % 10) && t[|t| - 1] == Digit(b % 10);
    assert a % 10 == b % 10;
    if a >= 10 && b >= 10 {
      assert s[..|s| - 1] == Decimal(a / 10) && t[..|t| - 1] == Decimal(b / 10);
      DecimalIsInjective(a / 10, b / 10);
    }
  }

  // Every document lies in one of the buckets 0 .. n-1, and in no second one.
  lemma ShardIsOneOfTheBuckets(documentID: string, shardCount: int) returns (k: nat)
    ensures k < (if shardCount <= 0 then GSI_SHARD_COUNT else shardCount)
    ensures ComputeShard(documentID, shardCount) == Decimal(k)
    ensures forall j: nat | ComputeShard(documentID, shardCount) == Decimal(j) :: j == k
  {
    var n := if shardCount <= 0 then GSI_SHARD_COUNT else shardCount;
    var stripped := StripHyphens(documentID);
    k := if |stripped| < 8 then 0
         else match ParseHex(stripped[..8]) case None => 0 case Some(v) => v % n;
    assert Decimal(0) == "0";
    forall j: nat | ComputeShard(documentID, shardCount) == Decimal(j)
      ensures j == k
    {
      DecimalIsInjective(j, k);
    }
  }

  predicate Queried(shard: string, shardCount: nat) {
    exists k: nat :: k < shardCount && shard == Decimal(k)
  }

  /**
   * Documents are written under ComputeShardDefault. Querying the buckets 0 .. n-1 reaches every
   * document exactly when n is at least GSIShardCount.
   */
  lemma BucketsReachEveryDocument(shardCount: nat)
    ensures (forall id: string :: Queried(ComputeShardDefault(id), shardCount)) <==> shardCount >= 4
  {
    forall id: string | shardCount >= GSI_SHARD_COUNT
      ensures Queried(ComputeShardDefault(id), shardCount)
    {
      var k := ShardIsOneOfTheBuckets(id, GSI_SHARD_COUNT);
    }
    if shardCount < GSI_SHARD_COUNT {
      var id := "00000003";
      ThirdBucket();
      forall k: nat | k < shardCount
        ensures ComputeShardDefault(id) != Decimal(k)
      {
        if ComputeShardDefault(id) == Decimal(k) {
          DecimalIsInjective(k, 3);
        }
      }
      assert !Queried(ComputeShardDefault(id), shardCount);
    }
  }

  lemma ThirdBucket()
    ensures ComputeShardDefault("00000003") == Decimal(3)
  {
    var id := "00000003";
    NothingToStrip(id);
    assert id[..8] == id;
    HexOfZeros(7);
    assert id[..7] == Zeros(7);
    assert ParseHex(id) == Some(3);
  }

  function Zeros(n: nat): string {
    seq(n, _ => '0')
  }

  lemma {:induction false} HexOfZeros(n: nat)
    ensures ParseHex(Zeros(n)) == Some(0)
  {
    if n > 0 {
      assert Zeros(n)[..n - 1] == Zeros(n - 1);
      HexOfZeros(n - 1);
    }
  }

  lemma {:induction false} NothingToStrip(s: string)
    requires '-' !in s
    ensures StripHyphens(s) == s
  {
    if s != "" {
      NothingToStrip(s[1..]);
    }
  }

  // ---- the value of the first eight hex digits -----------------------------------------------------

  predicate HexOf(c: char, d: nat) {
    if d < 10 then c as nat == '0' as nat + d
    else d < 16 && (c as nat == 'a' as nat + d - 10 || c as nat == 'A' as nat + d - 10)
  }

  ghost predicate IsHex(c: char) {
    exists d: nat :: HexOf(c, d)
  }

  lemma HexDigitExactly(c: char)
    ensures forall d: nat :: HexOf(c, d) <==> HexDigit(c) == Some(d)
    ensures HexDigit(c).Some? <==> IsHex(c)
  {
    if HexDigit(c).Some? {
      assert HexOf(c, HexDigit(c).value);
    }
  }

  lemma {:induction false} StripConcat(a: string, b: string)
    ensures StripHyphens(a + b) == StripHyphens(a) + StripHyphens(b)
  {
    if a == "" {
      assert a + b == b;
    } else {
      assert (a + b)[1..] == a[1..] + b;
      StripConcat(a[1..], b);
    }
  }

  // Hyphens do not count.
  lemma HyphensDoNotCount(a: string, b: string, shardCount: int)
    ensures ComputeShard(a + "-" + b, shardCount) == ComputeShard(a + b, shardCount)
  {
    assert "-"[1..] == "";
    assert StripHyphens("-") == "";
    StripConcat(a + "-", b);
    StripConcat(a, "-");
    StripConcat(a, b);
    assert StripHyphens(a + "-" + b) == StripHyphens(a + b);
  }

  lemma ParseOne(s: string, c: char, d: nat)
    requires HexDigit(c) == Some(d) && ParseHex(s).Some?
    ensures ParseHex(s + [c]) == Some(16 * ParseHex(s).value + d)
  {
    var t := s + [c];
    assert t != "" && t[..|t| - 1] == s && t[|t| - 1] == c;
  }

  function Value(ds: seq<nat>): nat {
    if ds == [] then 0 else 16 * Value(ds[..|ds| - 1]) + ds[|ds| - 1]
  }

  lemma {:induction false} ParseDigits(s: string, ds: seq<nat>)
    requires |s| == |ds| && forall i | 0 <= i < |s| :: HexOf(s[i], ds[i])
    ensures ParseHex(s) == Some(Value(ds))
  {
    if s != "" {
      var n := |s| - 1;
      ParseDigits(s[..n], ds[..n]);
      HexDigitExactly(s[n]);
      ParseOne(s[..n], s[n], ds[n]);
      assert s == s[..n] + [s[n]];
    }
  }

  lemma ValueOfTwo(ds: seq<nat>, a: nat, b: nat)
    ensures Value(ds + [a, b]) == 0x100 * Value(ds) + 0x10 * a + b
  {
    assert (ds + [a, b])[..|ds| + 1] == ds + [a];
    assert (ds + [a])[..|ds|] == ds;
  }

  lemma ValueOfEight(ds: seq<nat>)
    requires |ds| == 8
    ensures Value(ds) == 0x1000_0000 * ds[0] + 0x100_0000 * ds[1] + 0x10_0000 * ds[2] + 0x1_0000 * ds[3]
                         + 0x1000 * ds[4] + 0x100 * ds[5] + 0x10 * ds[6] + ds[7]
  {
    ValueOfTwo([], ds[0], ds[1]);
    ValueOfTwo(ds[..2], ds[2], ds[3]);
    ValueOfTwo(ds[..4], ds[4], ds[5]);
    ValueOfTwo(ds[..6], ds[6], ds[7]);
    assert [] + [ds[0], ds[1]] == ds[..2] && ds[..2] + [ds[2], ds[3]] == ds[..4];
    assert ds[..4] + [ds[4], ds[5]] == ds[..6] && ds[..6] + [ds[6], ds[7]] == ds;
  }

  /** The bucket of an id that begins with eight hex digits is their value modulo the shard count. */
  lemma ShardIsTheHexValue(s: string, rest: string, ds: seq<nat>, shardCount: nat)
    requires |s| == |ds| == 8 && shardCount > 0
    requires forall i | 0 <= i < 8 :: HexOf(s[i], ds[i])
    ensures var v := 0x1000_0000 * ds[0] + 0x100_0000 * ds[1] + 0x10_0000 * ds[2] + 0x1_0000 * ds[3]
                     + 0x1000 * ds[4] + 0x100 * ds[5] + 0x10 * ds[6] + ds[7];
            ComputeShard(s + rest, shardCount) == Decimal(v % shardCount)
  {
    assert forall i | 0 <= i < 8 :: HexOf(s[i], ds[i]) && s[i] != '-';
    StripConcat(s, rest);
    NothingToStrip(s);
    assert (s + StripHyphens(rest))[..8] == s;
    ParseDigits(s, ds);
    ValueOfEight(ds);
  }

  lemma {:induction false} NotHex(s: string, i: nat)
    requires i < |s| && !IsHex(s[i])
    ensures ParseHex(s) == None
  {
    HexDigitExactly(s[|s| - 1]);
    if i < |s| - 1 {
      NotHex(s[..|s| - 1], i);
    }
  }

  // Ids that do not begin with eight hex digits go to bucket 0.
  lemma OtherIdsGoToBucketZero(documentID: string, shardCount: int)
    ensures var t := StripHyphens(documentID);
            |t| < 8 || (exists i :: 0 <= i < 8 && !IsHex(t[i])) ==> ComputeShard(documentID, shardCount) == "0"
  {
    var t := StripHyphens(documentID);
    if |t| >= 8 {
      if i :| 0 <= i < 8 && !IsHex(t[i]) {
        assert t[..8][i] == t[i];
        NotHex(t[..8], i);
      }
    }
  }
}

/** The channel table of channel.go:65-144: a hashed array of maps with lazy expiry. */
module ChannelTable {
  import opened Decimal

  const SECOND := 1_000_000_000

  // ----- the masked bucket index -----

  /** Bitwise and of two unsigned numbers. */
  function And(x: nat, y: nat): nat {
    if y == 0 then 0 else 2 * And(x / 2, y / 2) + (x % 2) * (y % 2)
  }

  /** Masking with `y` stays within `y`, so the index is in range for any bucket count. */
  lemma {:induction false} AndBound(x: nat, y: nat)
    ensures And(x, y) <= y
  {
    if y == 0 {
    } else {
      AndBound(x / 2, y / 2);
      assert (x % 2) * (y % 2) <= y % 2;
    }
  }

  /** Bit for bit: the mask keeps the bits that both numbers have. */
  lemma {:induction false} AndBits(x: nat, y: nat, k: nat)
    ensures Pow2(k) > 0
    ensures (And(x, y) / Pow2(k)) % 2 == ((x / Pow2(k)) % 2) * ((y / Pow2(k)) % 2)
  {
    if k == 0 {
      LowBit(x, y);
    } else {
      hide And;
      AndBits(x / 2, y / 2, k - 1);
      AndHalves(x, y);
      var p := Pow2(k - 1);
      DivideTwice(And(x, y), p);
      DivideTwice(x, p);
      DivideTwice(y, p);
    }
  }

  lemma BitTimesBit(b: nat, c: nat)
    ensures 0 <= (b % 2) * (c % 2) < 2
  {
  }

  lemma Halves(a: nat, b: nat)
    requires b < 2
    ensures (2 * a + b) / 2 == a && (2 * a + b) % 2 == b
  {
  }

  lemma LowBit(x: nat, y: nat)
    ensures And(x, y) % 2 == (x % 2) * (y % 2)
  {
    BitTimesBit(x, y);
    if y > 0 {
      Halves(And(x / 2, y / 2), (x % 2) * (y % 2));
    }
  }

  lemma AndHalves(x: nat, y: nat)
    ensures And(x, y) / 2 == And(x / 2, y / 2)
  {
    BitTimesBit(x, y);
    var b := (x % 2) * (y % 2);
    if y > 0 {
      assert And(x, y) == 2 * And(x / 2, y / 2) + b;
      hide And;
      Halves(And(x / 2, y / 2), b);
    }
  }

  lemma DivideTwice(x: nat, p: nat)
    requires p > 0
    ensures x / (2 * p) == x / 2 / p
  {
    var h := x / 2;
    var q, r := h / p, h % p;
    assert h == q * p + r;
    assert x == 2 * h + x % 2;
    assert x == (2 * p) * q + (2 * r + x % 2);
    QuotientIs(x, 2 * p, q, 2 * r + x % 2);
  }

  lemma QuotientIs(x: int, d: int, q: int, r: int)
    requires 0 <= r < d && x == d * q + r
    ensures x / d == q
  {
    var q', r' := x / d, x % d;
    assert x == d * q' + r';
    assert (q - q') * d == r' - r;
    if q != q' {
      MultipleIsLarge(q - q', d);
    }
  }

  function Pow2(k: nat): nat {
    if k == 0 then 1 else 2 * Pow2(k - 1)
  }

  lemma AndOdd(x: nat, p: nat)
    requires p >= 1
    ensures And(x, 2 * p - 1) == 2 * And(x / 2, p - 1) + x % 2
  {
    assert (2 * p - 1) / 2 == p - 1 && (2 * p - 1) % 2 == 1;
  }

  /** For a power of two the mask is the remainder, so every bucket is used. */
  lemma {:induction false} MaskIsRemainder(x: nat, k: nat)
    ensures Pow2(k) >= 1 && And(x, Pow2(k) - 1) == x % Pow2(k)
  {
    if k == 0 {
    } else {
      hide And;
      var p := Pow2(k - 1);
      MaskIsRemainder(x / 2, k - 1);
      AndOdd(x, p);
      HalfRemainder(x, p);
    }
  }

  lemma HalfRemainder(x: nat, p: nat)
    requires p >= 1
    ensures 2 * ((x / 2) % p) + x % 2 == x % (2 * p)
  {
    var h := x / 2;
    var q, r := h / p, h % p;
    assert h == q * p + r;
    assert x == 2 * h + x % 2;
    assert x == (2 * p) * q + (2 * r + x % 2);
    RemainderIs(x, 2 * p, q, 2 * r + x % 2);
  }

  lemma RemainderIs(x: int, d: int, q: int, r: int)
    requires 0 <= r < d && x == d * q + r
    ensures x % d == r
  {
    var q', r' := x / d, x % d;
    assert x == d * q' + r';
    assert (q - q') * d == r' - r;
    if q != q' {
      MultipleIsLarge(q - q', d);
    }
  }

  lemma MultipleIsLarge(k: int, d: int)
    requires k != 0 && d > 0
    ensures k * d >= d || k * d <= -d
  {
    if k >= 1 {
      assert (k - 1) * d >= 0;
    } else {
      assert (-k - 1) * d >= 0;
    }
  }

  // ----- the table seen as one map from keys to deadlines -----

  datatype Op = NewOp(key: string, now: int) | GetOp(key: string, now: int)

  /** New refreshes or creates; Get drops an expired entry. */
  ghost function After(m: map<string, int>, op: Op, life: int): map<string, int> {
    match op
    case NewOp(key, now) => m[key := now + life]
    case GetOp(key, now) => if key in m && now > m[key] then m - {key} else m
  }

  ghost predicate Finds(m: map<string, int>, key: string, now: int) {
    key in m && now <= m[key]
  }

  ghost function Run(ops: seq<Op>, n: nat, life: int): map<string, int>
    requires n <= |ops|
  {
    if n == 0 then map[] else After(Run(ops, n - 1, life), ops[n - 1], life)
  }

  /** When `key` was last given to New. */
  ghost function LastNew(ops: seq<Op>, n: nat, key: string): Option<int>
    requires n <= |ops|
  {
    if n == 0 then None
    else if ops[n - 1].NewOp? && ops[n - 1].key == key then Some(ops[n - 1].now)
    else LastNew(ops, n - 1, key)
  }

  ghost predicate ClockAdvances(ops: seq<Op>) {
    forall i, j :: 0 <= i < j < |ops| ==> ops[i].now <= ops[j].now
  }

  lemma {:induction false} EntriesAreCurrent(ops: seq<Op>, n: nat, life: int, key: string)
    requires n <= |ops| && ClockAdvances(ops)
    ensures var m, last := Run(ops, n, life), LastNew(ops, n, key);
      if key in m then last == Some(m[key] - life)
      else last.Some? ==> exists i :: 0 <= i < n && ops[i].now > last.value + life
  {
    if n == 0 {
    } else {
      EntriesAreCurrent(ops, n - 1, life, key);
      var m, t := Run(ops, n - 1, life), Run(ops, n, life);
      if key in m && key !in t {
        assert ops[n - 1].now > m[key];
      }
    }
  }

  /** Dropping entries only when Get happens upon them is not observable: Get finds a channel
      exactly when the key was last given to New no longer ago than the channel's life. */
  lemma LazyExpiryIsExact(ops: seq<Op>, n: nat, life: int)
    requires n < |ops| && ops[n].GetOp? && ClockAdvances(ops)
    ensures Finds(Run(ops, n, life), ops[n].key, ops[n].now) <==>
            LastNew(ops, n, ops[n].key).Some? && ops[n].now <= LastNew(ops, n, ops[n].key).value + life
  {
    EntriesAreCurrent(ops, n, life, ops[n].key);
  }

  // ----- the table of the source -----

  class Channel {
    var expire: int
    var closed: bool

    constructor (expire: int)
      ensures this.expire == expire && !closed
    {
      this.expire, closed := expire, false;
    }
  }

  datatype Error = NoError | ChannelNotExistErr | ChannelExpiredErr | ChannelTypeErr

  class ChannelList {
    const hash: string -> nat
    const channels: array<map<string, Channel>>
    ghost var flat: map<string, Channel>     // all buckets as one map
    ghost var deadlines: map<string, int>  // the deadline of each channel in it

    function Index(key: string): (i: nat)
      requires channels.Length >= 1
      ensures i < channels.Length && i == And(hash(key), channels.Length - 1)
    {
      AndBound(hash(key), channels.Length - 1);
      And(hash(key), channels.Length - 1)
    }

    /** The part of the table that belongs into bucket `i`. */
    ghost function Part(table: map<string, Channel>, i: nat): map<string, Channel>
      requires channels.Length >= 1
    {
      map key | key in table && Index(key) == i :: table[key]
    }

    /** Each bucket holds its part of the flat map, and nothing else. */
    ghost predicate Buckets()
      reads this`flat, channels
    {
      channels.Length >= 1 && forall i :: 0 <= i < channels.Length ==> channels[i] == Part(flat, i)
    }

    lemma PartWith(table: map<string, Channel>, key: string, c: Channel, i: nat)
      requires channels.Length >= 1
      ensures Part(table[key := c], i) == if i == Index(key) then Part(table, i)[key := c] else Part(table, i)
    {
      hide Index;
    }

    lemma PartWithout(table: map<string, Channel>, key: string, i: nat)
      requires channels.Length >= 1
      ensures Part(table - {key}, i) == if i == Index(key) then Part(table, i) - {key} else Part(table, i)
    {
      hide Index;
      assert i != Index(key) ==> Part(table - {key}, i) == Part(table, i);
      assert i == Index(key) ==> Part(table - {key}, i) == Part(table, i) - {key};
    }

    /** No two keys share a channel, and each channel carries its deadline. */
    ghost predicate Valid()
      reads this, channels, flat.Values
    {
      && Buckets()
      && (forall j, k :: j in flat && k in flat && j != k ==> flat[j] != flat[k])
      && deadlines.Keys == flat.Keys && (forall key :: key in flat ==> flat[key].expire == deadlines[key])
    }

    constructor (hash: string -> nat, buckets: nat)
      requires buckets >= 1
      ensures Valid() && flat == map[] && deadlines == map[] && this.hash == hash && channels.Length == buckets
      ensures fresh(channels)
    {
      this.hash := hash;
      channels := new map<string, Channel>[buckets](_ => map[]);
      flat, deadlines := map[], map[];
    }

    lemma InBucket(key: string)
      requires Buckets()
      ensures key in channels[Index(key)] <==> key in flat
      ensures key in flat ==> channels[Index(key)][key] == flat[key]
    {
    }

    lemma SameEntry(table: map<string, Channel>, key: string, c: Channel)
      requires key in table && table[key] == c
      ensures table == table[key := c]
    {
    }

    /** Setting the deadline of a channel that is in the table. */
    method Refresh(ghost key: string, c: Channel, deadline: int)
      requires Valid() && key in flat && flat[key] == c
      modifies this`deadlines, c`expire
      ensures Valid() && deadlines == old(deadlines)[key := deadline]
    {
      hide Index;
      c.expire := deadline;
      deadlines := deadlines[key := deadline];
    }

    method PutInBucket(key: string, c: Channel)
      requires Buckets()
      modifies this`flat, channels
      ensures Buckets() && flat == old(flat)[key := c]
    {
      hide Index, Part;
      forall i | 0 <= i < channels.Length
        ensures Part(flat[key := c], i) == if i == Index(key) then Part(flat, i)[key := c] else Part(flat, i)
      {
        PartWith(flat, key, c, i);
      }
      var i := Index(key);
      channels[i] := channels[i][key := c];
      flat := flat[key := c];
    }

    method Put(key: string, c: Channel)
      requires Valid() && key !in flat && forall k :: k in flat ==> flat[k] != c
      modifies this`flat, this`deadlines, channels
      ensures Valid() && flat == old(flat)[key := c] && deadlines == old(deadlines)[key := c.expire]
    {
      hide Buckets, Index;
      PutInBucket(key, c);
      deadlines := deadlines[key := c.expire];
    }

    method DropFromBucket(key: string)
      requires Buckets()
      modifies this`flat, channels
      ensures Buckets() && flat == old(flat) - {key}
    {
      hide Index, Part;
      forall i | 0 <= i < channels.Length
        ensures Part(flat - {key}, i) == if i == Index(key) then Part(flat, i) - {key} else Part(flat, i)
      {
        PartWithout(flat, key, i);
      }
      var i := Index(key);
      channels[i] := channels[i] - {key};
      flat := flat - {key};
    }

    method Drop(key: string)
      requires Valid() && key in flat
      modifies this`flat, this`deadlines, channels
      ensures Valid() && flat == old(flat) - {key} && deadlines == old(deadlines) - {key}
    {
      hide Buckets, Index;
      DropFromBucket(key);
      deadlines := deadlines - {key};
    }

    /** `life` is the configured expiry in seconds; `kind` the configured channel type. */
    method New(key: string, now: int, life: int, kind: int) returns (c: Channel?, err: Error)
      requires Valid()
      modifies this`flat, this`deadlines, channels, flat.Values
      ensures Valid()
      ensures err == ChannelTypeErr <==> key !in old(flat) && kind != 1 && kind != 2
      ensures err == NoError || err == ChannelTypeErr
      ensures err == NoError ==> c != null && flat == old(flat)[key := c] && (key in old(flat) ==> c == old(flat)[key])
      ensures err == NoError ==> deadlines == After(old(deadlines), NewOp(key, now), life * SECOND)
      ensures err == NoError ==> deadlines == old(deadlines)[key := now + life * 1_000_000_000]
      ensures err == ChannelTypeErr ==> c == null && flat == old(flat) && deadlines == old(deadlines)
    {
      InBucket(key);
      var i := Index(key);
      if key in channels[i] {
        c := channels[i][key];
        SameEntry(flat, key, c);
        Refresh(key, c, now + life * SECOND);
        return c, NoError;
      }
      if kind != 1 && kind != 2 {
        return null, ChannelTypeErr;
      }
      c := new Channel(now + life * SECOND);
      Put(key, c);
      return c, NoError;
    }

    method Get(key: string, now: int) returns (c: Channel?, err: Error)
      requires Valid()
      modifies this`flat, this`deadlines, channels, flat.Values
      ensures Valid() && deadlines == After(old(deadlines), GetOp(key, now), 0)
      ensures err == ChannelNotExistErr <==> key !in old(flat)
      ensures err == NoError <==> Finds(old(deadlines), key, now)
      ensures err == NoError <==> key in old(flat) && now <= old(deadlines)[key]
      ensures err == ChannelExpiredErr ==> c == null && flat == old(flat) - {key} && old(flat)[key].closed
      ensures err != ChannelExpiredErr ==> flat == old(flat)
      ensures if err == NoError then key in flat && c == flat[key] else c == null
    {
      InBucket(key);
      var i := Index(key);
      if key !in channels[i] {
        return null, ChannelNotExistErr;
      }
      c := channels[i][key];
      if now > c.expire {
        Drop(key);
        c.closed := true;
        return null, ChannelExpiredErr;
      }
      return c, NoError;
    }
  }

  /** `kind` is the configured channel type; `redisUp` is whether the Redis channel initialises, which
      is asked only when that type is chosen. */
  method NewChannelList(hash: string -> nat, buckets: nat, kind: int, redisUp: bool) returns (l: ChannelList?)
    requires buckets >= 1
    ensures l == null <==> kind == 2 && !redisUp
    ensures l != null ==> fresh(l) && fresh(l.channels) && l.Valid() && l.flat == map[] && l.deadlines == map[]
    ensures l != null ==> l.hash == hash && l.channels.Length == buckets
  {
    l := new ChannelList(hash, buckets);
    if kind == 2 && !redisUp {
      l := null;
    }
  }
}

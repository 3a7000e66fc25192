/** The Redis link cache of ext/redisx/cache.go: link and expiry in one string value. */
module RedisCache {
  import opened Collections
  import opened Base62
  import opened Links
  import opened MemoryCache

  // ---- decimal numbers ----

  function DecimalDigit(d: int): (c: char)
    requires 0 <= d < 10
    ensures '0' <= c <= '9' && c as int - 48 == d
  {
    (d + 48) as char
  }

  function Decimal(n: nat): (s: string)
    ensures s != "" && forall i :: 0 <= i < |s| ==> '0' <= s[i] <= '9'
  {
    if n < 10 then [DecimalDigit(n)] else Decimal(n / 10) + [DecimalDigit(n % 10)]
  }

  function FormatInt(n: int): string {
    if n < 0 then "-" + Decimal(-n) else Decimal(n)
  }

  predicate AllDecimal(s: string) {
    forall i :: 0 <= i < |s| ==> '0' <= s[i] <= '9'
  }

  function DecimalValue(s: string): (n: int)
    requires AllDecimal(s)
    ensures n >= 0
  {
    if s == "" then 0 else DecimalValue(s[..|s| - 1]) * 10 + (s[|s| - 1] as int - 48)
  }

  /** Base 10, 64 bits: an optional sign and at least one digit, within range; anything else is an error. */
  function ParseInt(s: string): Option<int> {
    if s == "" then None
    else
      var digits := if s[0] == '-' || s[0] == '+' then s[1..] else s;
      if digits == "" || !AllDecimal(digits) then None
      else
        var n := if s[0] == '-' then -DecimalValue(digits) else DecimalValue(digits);
        if IsInt64(n) then Some(n) else None
  }

  // ---- the stored value ----

  function FormatLinkWithExpireTime(link: string, unix: int): string {
    link + "\n" + FormatInt(unix)
  }

  /** At most two parts, cut at the first newline. */
  function SplitLinkAndExpireTime(value: string): seq<string> {
    if value == "" then [""]
    else if value[0] == '\n' then ["", value[1..]]
    else
      var rest := SplitLinkAndExpireTime(value[1..]);
      if rest == [] then [value] else [[value[0]] + rest[0]] + rest[1..]
  }

  /** What Get makes of a stored value: the link and its expiry, or a miss. */
  function Decoded(value: string): Option<(string, int)> {
    var parts := SplitLinkAndExpireTime(value);
    if |parts| != 2 then None
    else match ParseInt(parts[1])
      case None => None
      case Some(unix) => Some((parts[0], unix))
  }

  class RedisShortLinkCache {
    var hashes: map<int, map<string, string>>
    const clock: Clock

    constructor (clock: Clock)
      ensures hashes == map[] && this.clock == clock
    {
      hashes := map[];
      this.clock := clock;
    }

    method Get(length: int, code: string) returns (link: string, ok: bool)
      modifies this, clock
      ensures old(clock.now) <= clock.now
      ensures var answer := StoredAnswer(old(hashes), length, code, clock.now);
        ok == answer.Some? && link == if ok then answer.value else ""
      ensures hashes == if ValueExpired(old(hashes), length, code, clock.now)
                        then old(hashes)[length := old(hashes)[length] - {code}] else old(hashes)
    {
      var now := clock.Read();
      if length !in hashes || code !in hashes[length] {
        return "", false;
      }
      var parts := SplitLinkAndExpireTime(hashes[length][code]);
      if |parts| != 2 {
        return "", false;
      }
      var expireTimeUnix := ParseInt(parts[1]);
      if expireTimeUnix.None? {
        return "", false;
      }
      if now > expireTimeUnix.value * SECOND {
        Remove(length, code);
        return "", false;
      }
      return parts[0], true;
    }

    method Add(length: int, code: string, link: string, expireTime: int)
      modifies this
      ensures hashes == Stored(old(hashes), length, code, link, expireTime)
    {
      var value := FormatLinkWithExpireTime(link, Unix(expireTime));
      hashes := hashes[length := (if length in hashes then hashes[length] else map[])[code := value]];
    }

    method Remove(length: int, code: string)
      modifies this
      ensures hashes ==
        if length in old(hashes) then old(hashes)[length := old(hashes)[length] - {code}] else old(hashes)
    {
      if length in hashes {
        hashes := hashes[length := hashes[length] - {code}];
      }
    }
  }

  type Hashes = map<int, map<string, string>>

  function Stored(hashes: Hashes, length: int, code: string, link: string, expireTime: int): Hashes {
    hashes[length := (if length in hashes then hashes[length] else map[])
                     [code := FormatLinkWithExpireTime(link, Unix(expireTime))]]
  }

  function StoredAnswer(hashes: Hashes, length: int, code: string, now: int): Option<string> {
    if length !in hashes || code !in hashes[length] then None
    else match Decoded(hashes[length][code])
      case None => None
      case Some((link, unix)) => if now > unix * SECOND then None else Some(link)
  }

  /** Only a readable value past its expiry is deleted by a lookup. */
  predicate ValueExpired(hashes: Hashes, length: int, code: string, now: int) {
    length in hashes && code in hashes[length] &&
    match Decoded(hashes[length][code])
    case None => false
    case Some((link, unix)) => now > unix * SECOND
  }

  // ---- round trip ----

  lemma {:induction false} DecimalRoundTrip(n: nat)
    ensures AllDecimal(Decimal(n)) && DecimalValue(Decimal(n)) == n
  {
    if n >= 10 {
      DecimalRoundTrip(n / 10);
      assert Decimal(n)[..|Decimal(n)| - 1] == Decimal(n / 10);
    } else {
      assert Decimal(n)[..0] == "";
    }
  }

  lemma {:induction false} ParseFormat(n: int)
    requires IsInt64(n)
    ensures ParseInt(FormatInt(n)) == Some(n)
  {
    var digits := Decimal(if n < 0 then -n else n);
    DecimalRoundTrip(if n < 0 then -n else n);
    if n < 0 {
      assert FormatInt(n)[1..] == digits;
    } else {
      assert digits[0] != '-' && digits[0] != '+';
    }
  }

  /** The cut is at the first newline of the link, if it has one, and otherwise at the separator. */
  lemma {:induction false} SplitJoined(link: string, rest: string)
    ensures var parts := SplitLinkAndExpireTime(link + "\n" + rest);
      && |parts| == 2
      && ('\n' !in link ==> parts == [link, rest])
      && ('\n' in link ==> |parts[1]| > |rest| && parts[1][|parts[1]| - |rest| - 1] == '\n')
  {
    var value := link + "\n" + rest;
    if link != "" {
      assert value[0] == link[0] && value[1..] == link[1..] + "\n" + rest;
      assert '\n' in link <==> link[0] == '\n' || '\n' in link[1..];
      if link[0] != '\n' {
        SplitJoined(link[1..], rest);
        assert [link[0]] + link[1..] == link;
      }
    } else {
      assert value == "\n" + rest && value[1..] == rest;
    }
  }

  lemma {:induction false} NewlineIsNoNumber(s: string, k: nat)
    requires k < |s| && s[k] == '\n'
    ensures ParseInt(s) == None
  {
    var digits := if s[0] == '-' || s[0] == '+' then s[1..] else s;
    if digits != "" {
      assert !AllDecimal(digits) by {
        assert digits[if s[0] == '-' || s[0] == '+' then k - 1 else k] == '\n';
      }
    }
  }

  /** For every link and int64 timestamp: both come back if the link has no newline, and else it is a miss. */
  lemma {:induction false} ValueRoundTrip(link: string, unix: int)
    requires IsInt64(unix)
    ensures Decoded(FormatLinkWithExpireTime(link, unix)) == if '\n' in link then None else Some((link, unix))
  {
    SplitJoined(link, FormatInt(unix));
    ParseFormat(unix);
    if '\n' in link {
      var parts := SplitLinkAndExpireTime(FormatLinkWithExpireTime(link, unix));
      NewlineIsNoNumber(parts[1], |parts[1]| - |FormatInt(unix)| - 1);
    }
  }

  /**
    Against the in-memory cache, for an entry just added: the Redis cache answers the same, except
    that links with a newline are never served and the last fraction of a second is cut off.
   */
  lemma {:induction false} AgreesWithMemoryIff(hashes: Hashes, cache: Cache, length: int, code: string, link: string,
          expireTime: int, now: int)
    requires IsInt64(Unix(expireTime))
    ensures var redis := StoredAnswer(Stored(hashes, length, code, link, expireTime), length, code, now);
      var memory := Answer(Put(cache, length, code, CacheItem(link, expireTime)), length, code, now);
      && (redis.Some? ==> memory == Some(CacheItem(link, expireTime)) && redis.value == link)
      && ((redis.Some? <==> memory.Some?) <==>
          now > expireTime || ('\n' !in link && now <= Unix(expireTime) * SECOND))
  {
    ValueRoundTrip(link, Unix(expireTime));
    assert Unix(expireTime) * SECOND <= expireTime;
  }

  /** A lookup deletes the value of an entry exactly when it is past its expiry second and the link has no newline. */
  lemma {:induction false} DeletedIff(hashes: Hashes, length: int, code: string, link: string, expireTime: int,
          now: int)
    requires IsInt64(Unix(expireTime))
    ensures ValueExpired(Stored(hashes, length, code, link, expireTime), length, code, now) <==>
      '\n' !in link && now > Unix(expireTime) * SECOND
  {
    ValueRoundTrip(link, Unix(expireTime));
  }

  /** An optional sign and decimal digits within int64 are a number, and nothing else is. */
  lemma {:induction false} ParseIntIff(s: string, n: int)
    ensures ParseInt(s) == Some(n) <==> IsInt64(n) && exists digits ::
      digits != "" && AllDecimal(digits) && Signed(s, digits, n)
  {
    if ParseInt(s) == Some(n) {
      var digits := if s[0] == '-' || s[0] == '+' then s[1..] else s;
      assert Signed(s, digits, n);
    }
    forall digits | digits != "" && AllDecimal(digits) && Signed(s, digits, n) && IsInt64(n)
      ensures ParseInt(s) == Some(n)
    {
      assert ("-" + digits)[1..] == digits && ("+" + digits)[1..] == digits;
    }
  }

  predicate Signed(s: string, digits: string, n: int)
    requires AllDecimal(digits)
  {
    (s == digits && n == DecimalValue(digits)) || (s == "+" + digits && n == DecimalValue(digits))
    || (s == "-" + digits && n == -DecimalValue(digits))
  }
}

/** Header values are text: integers and whole-second timestamps in decimal. */
module Text {
  import opened Headers

  const MAX_INT64: int := 0x7FFF_FFFF_FFFF_FFFF
  const NANOS_PER_SECOND: int := 1_000_000_000

  predicate IsInt64(n: int) {
    -MAX_INT64 - 1 <= n <= MAX_INT64
  }

  function DigitChar(d: nat): char
    requires d < 10
  {
    ['0', '1', '2', '3', '4', '5', '6', '7', '8', '9'][d]
  }

  function DigitValue(c: char): Option<nat> {
    if '0' <= c <= '9' then Some(c as int - '0' as int) else None
  }

  function Digits(n: nat): string {
    if n < 10 then [DigitChar(n)] else Digits(n / 10) + [DigitChar(n % 10)]
  }

  /** `strconv.Itoa` and `strconv.FormatInt(_, 10)`. */
  function Itoa(n: int): string {
    if n < 0 then "-" + Digits(-n) else Digits(n)
  }

  function ParseDigits(s: string): Option<int> {
    if s == [] then Some(0)
    else
      match (ParseDigits(s[..|s| - 1]), DigitValue(s[|s| - 1]))
      case (Some(n), Some(d)) => Some(10 * n + d)
      case _ => None
  }

  /** `strconv.Atoi` and `strconv.ParseInt(_, 10, 64)`: an optional sign, at least one
      decimal digit, nothing else, and a value that fits in 64 bits. */
  function Atoi(s: string): Option<int> {
    var signed := s != [] && (s[0] == '-' || s[0] == '+');
    var body := if signed then s[1..] else s;
    if body == [] then None
    else
      match ParseDigits(body)
      case None => None
      case Some(n) =>
        var v := if signed && s[0] == '-' then -n else n;
        if IsInt64(v) then Some(v) else None
  }

  lemma {:induction false} DigitsRoundTrip(n: nat)
    ensures Digits(n) != [] && '0' <= Digits(n)[0] <= '9'
    ensures ParseDigits(Digits(n)) == Some(n)
    decreases n
  {
    if n < 10 {
      assert ParseDigits([]) == Some(0);
      assert [DigitChar(n)][..0] == [];
    } else {
      DigitsRoundTrip(n / 10);
      var init := Digits(n / 10);
      assert (init + [DigitChar(n % 10)])[..|init|] == init;
    }
  }

  /** Every 64-bit integer survives being written and read. */
  lemma ItoaRoundTrip(n: int)
    requires IsInt64(n)
    ensures Atoi(Itoa(n)) == Some(n)
  {
    DigitsRoundTrip(if n < 0 then -n else n);
    if n < 0 {
      assert Itoa(n)[1..] == Digits(-n);
    }
  }

  // ---------------------------------------------------------------- which texts are numbers

  function Power10(n: nat): nat {
    if n == 0 then 1 else 10 * Power10(n - 1)
  }

  /** What digits in decimal places are worth, from the first on. */
  function PlaceValue(s: string): int {
    if s == [] then 0 else (s[0] as int - '0' as int) * Power10(|s| - 1) + PlaceValue(s[1..])
  }

  predicate AllDigits(s: string) {
    forall i | 0 <= i < |s| :: '0' <= s[i] <= '9'
  }

  /** One digit behind the others. */
  lemma {:induction false} PlaceValueAppend(s: string, c: char)
    ensures PlaceValue(s + [c]) == 10 * PlaceValue(s) + (c as int - '0' as int)
    decreases |s|
  {
    var r := s + [c];
    if s == [] {
      assert r[1..] == [] && Power10(0) == 1 && PlaceValue([]) == 0;
    } else {
      assert r[1..] == s[1..] + [c];
      PlaceValueAppend(s[1..], c);
      OnePlaceUp(s[0] as int - '0' as int, Power10(|s| - 1), PlaceValue(s[1..]));
    }
  }

  lemma OnePlaceUp(d: int, power: int, rest: int)
    ensures d * (10 * power) + 10 * rest == 10 * (d * power + rest)
  {
  }

  lemma {:induction false} ParsedInPlaces(s: string)
    ensures ParseDigits(s) == if AllDigits(s) then Some(PlaceValue(s)) else None
    decreases |s|
  {
    if s != [] {
      var init, last := s[..|s| - 1], s[|s| - 1];
      assert s == init + [last];
      ParsedInPlaces(init);
      PlaceValueAppend(init, last);
      assert AllDigits(s) <==> AllDigits(init) && '0' <= last <= '9';
    }
  }

  /** A sign or none, then digits. */
  predicate Spells(s: string, sign: string, body: string) {
    s == sign + body && (sign == "" || sign == "+" || sign == "-") && body != [] && AllDigits(body)
  }

  /** A text is read as a number if and only if it is a sign or none and then digits, at least
      one, that are worth the number, and the number fits in 64 bits. */
  lemma AtoiExactly(s: string, v: int)
    ensures Atoi(s) == Some(v) <==>
            IsInt64(v) && exists sign, body ::
              Spells(s, sign, body) && v == if sign == "-" then -PlaceValue(body) else PlaceValue(body)
  {
    var signed := s != [] && (s[0] == '-' || s[0] == '+');
    var sign, body := if signed then s[..1] else "", if signed then s[1..] else s;
    assert s == sign + body;
    ParsedInPlaces(body);
    if Atoi(s) == Some(v) {
      assert Spells(s, sign, body);
    }
    forall sign', body' | Spells(s, sign', body') ensures sign' == sign && body' == body {
      SpelledOnce(s, sign', body');
    }
  }

  lemma SpelledOnce(s: string, sign: string, body: string)
    requires Spells(s, sign, body)
    ensures if s[0] == '-' || s[0] == '+' then sign == s[..1] && body == s[1..] else sign == "" && body == s
  {
    if sign == "" {
      assert s[0] == body[0];
    } else {
      assert s[0] == sign[0] && s[1..] == body;
    }
  }

  lemma {:induction false} DigitsAreDigits(n: nat)
    ensures AllDigits(Digits(n)) && Digits(n) != []
    ensures n > 0 ==> Digits(n)[0] != '0'
    decreases n
  {
    if n >= 10 {
      DigitsAreDigits(n / 10);
    }
  }

  /** Numbers are written with no sign or a minus, and with no zero in front of other digits. */
  lemma ItoaCanonical(n: int)
    ensures Itoa(0) == "0"
    ensures n != 0 ==> exists sign, body ::
              && Spells(Itoa(n), sign, body) && (sign == if n < 0 then "-" else "") && body[0] != '0'
              && PlaceValue(body) == if n < 0 then -n else n
  {
    if n != 0 {
      var m: nat := if n < 0 then -n else n;
      DigitsAreDigits(m);
      DigitsRoundTrip(m);
      ParsedInPlaces(Digits(m));
      assert Spells(Itoa(n), if n < 0 then "-" else "", Digits(m));
    }
  }

  // ---------------------------------------------------------------- typed header access

  function GetInt(l: seq<Header>, key: string): Option<int> {
    match Get(l, key)
    case None => None
    case Some(s) => Atoi(s)
  }

  function PutInt(l: seq<Header>, key: string, n: int): seq<Header> {
    Put(l, key, Itoa(n))
  }

  /** Times are nanoseconds since the epoch; `Unix()` floors to whole seconds. */
  function UnixSeconds(nanos: int): int {
    nanos / NANOS_PER_SECOND
  }

  function GetTime(l: seq<Header>, key: string): Option<int> {
    match GetInt(l, key)
    case None => None
    case Some(s) => Some(s * NANOS_PER_SECOND)
  }

  function PutTime(l: seq<Header>, key: string, nanos: int): seq<Header> {
    Put(l, key, Itoa(UnixSeconds(nanos)))
  }

  lemma IntRoundTrip(l: seq<Header>, key: string, n: int)
    requires IsInt64(n)
    ensures GetInt(PutInt(l, key, n), key) == Some(n)
  {
    PutGet(l, key, Itoa(n), key);
    ItoaRoundTrip(n);
  }

  /** A time comes back floored to whole seconds: never later, and less than one second
      earlier. Writing what was read gives the same text again. */
  lemma TimeRoundTrip(l: seq<Header>, key: string, nanos: int)
    requires IsInt64(UnixSeconds(nanos))
    ensures var back := GetTime(PutTime(l, key, nanos), key);
            && back.Some?
            && back.value <= nanos < back.value + NANOS_PER_SECOND
            && back.value % NANOS_PER_SECOND == 0
            && PutTime(PutTime(l, key, nanos), key, back.value) == PutTime(l, key, nanos)
  {
    var seconds := UnixSeconds(nanos);
    PutGet(l, key, Itoa(seconds), key);
    ItoaRoundTrip(seconds);
    SecondsFloor(nanos);
    PutTwice(l, key, Itoa(seconds));
  }

  lemma SecondsFloor(nanos: int)
    ensures var back := UnixSeconds(nanos) * NANOS_PER_SECOND;
            && back <= nanos < back + NANOS_PER_SECOND
            && back % NANOS_PER_SECOND == 0 && UnixSeconds(back) == UnixSeconds(nanos)
  {
  }

  lemma PutTwice(l: seq<Header>, key: string, value: string)
    ensures Put(Put(l, key, value), key, value) == Put(l, key, value)
  {
    var once := Put(l, key, value);
    var i := Find(once, key);
    assert once[if Find(l, key) < |l| then Find(l, key) else |l|] == Header(key, value);
    assert forall j | 0 <= j < Find(l, key) :: once[j] == l[j];
  }

  /** `WaitForRetryTime`: how long to wait at `now`; a missing or corrupt header, or a time
      that has passed, means not at all. */
  function RetryWait(l: seq<Header>, key: string, now: int): int {
    match GetTime(l, key)
    case None => 0
    case Some(due) => if now < due then due - now else 0
  }

  /** A header reads as a number if and only if its first value spells it; as a time, if those are
      its seconds; and the worker waits for it if and only if that time is still to come. */
  lemma HeaderReads(l: seq<Header>, key: string, v: int, now: int)
    ensures GetInt(l, key) == Some(v) <==>
            Get(l, key).Some? && IsInt64(v) && exists sign, body ::
              Spells(Get(l, key).value, sign, body) && v == if sign == "-" then -PlaceValue(body) else PlaceValue(body)
    ensures GetTime(l, key) == Some(v * 1_000_000_000) <==> GetInt(l, key) == Some(v)
    ensures RetryWait(l, key, now) == 0 <==> GetTime(l, key) == None || GetTime(l, key).value <= now
    ensures RetryWait(l, key, now) != 0 ==> GetTime(l, key) == Some(now + RetryWait(l, key, now))
  {
    if Get(l, key).Some? {
      AtoiExactly(Get(l, key).value, v);
    }
  }

  /** The worker wakes at the scheduled time floored to a second: after `now + delay` is
      reached it never waits, and before, it wakes less than a second early. */
  lemma WakeUpWithinOneSecond(l: seq<Header>, key: string, scheduled: int, now: int)
    requires IsInt64(UnixSeconds(scheduled))
    ensures var wake := now + RetryWait(PutTime(l, key, scheduled), key, now);
            && (now >= scheduled ==> wake == now)
            && (now < scheduled ==> scheduled - NANOS_PER_SECOND < wake <= scheduled)
  {
    TimeRoundTrip(l, key, scheduled);
  }
}

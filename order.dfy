/**
 * The order record (include/Order.h, src/Order.cpp): an immutable record of a
 * booking whose only mutable part is its status, and the order id built from
 * a timestamp and a process-wide counter.
 */
module Orders {

  /** The three states an order can be in (include/Order.h:19-23). */
  datatype OrderStatus = Paid | Cancelled | Completed

  /**
   * A broken-down local time as the source reads it from localtime():
   * the full year (1900 + tm_year), the month counted from 1, and so on.
   */
  datatype DateTime = DateTime(year: nat, month: nat, day: nat, hour: nat, minute: nat, second: nat)

  /**
   * The two clock readings an order is built from: the local time that the
   * id is formatted from and the epoch seconds kept as its creation time.
   */
  datatype Now = Now(local: DateTime, epochSeconds: int)

  datatype Order = Order(
    orderId: string,
    username: string,
    trainId: string,
    startStation: string,
    endStation: string,
    date: string,
    departureTime: string,
    price: real,
    ticketCount: int,
    status: OrderStatus,
    createTime: int)

  /** The largest value of the source's 32-bit signed `int`. */
  const IntMax: int := 0x7fff_ffff

  /** Field ranges of a time that localtime() produces. */
  predicate IsLocalTime(t: DateTime)
  {
    1 <= t.month <= 12 && 1 <= t.day <= 31 && t.hour <= 23 && t.minute <= 59 && t.second <= 60
  }

  // ----- Decimal formatting, as a stream with setfill('0') and setw prints numbers

  function Digit(d: nat): char
    requires d < 10
  {
    ('0' as int + d) as char
  }

  predicate IsDigit(c: char)
  {
    '0' <= c <= '9'
  }

  function DigitValue(c: char): nat
  {
    if IsDigit(c) then c as int - '0' as int else 0
  }

  /** The decimal digits of `n`, no leading zeros (a stream prints `n` this way). */
  function Decimal(n: nat): (s: string)
    ensures 1 <= |s|
    ensures forall i :: 0 <= i < |s| ==> IsDigit(s[i])
  {
    if n < 10 then [Digit(n)] else Decimal(n / 10) + [Digit(n % 10)]
  }

  function Zeros(k: nat): (s: string)
  {
    seq(k, _ => '0')
  }

  /**
   * `n` printed with setfill('0') << setw(width): padded on the left with
   * zeros to at least `width` characters, and never cut to fewer digits
   * than `n` has.
   */
  function ZeroPad(n: nat, width: nat): (s: string)
    ensures width <= |s| && |Decimal(n)| <= |s|
  {
    var digits := Decimal(n);
    if |digits| < width then Zeros(width - |digits|) + digits else digits
  }

  /** The number a string of decimal digits denotes; the inverse of the formatting. */
  function DigitsValue(s: string): nat
  {
    if |s| == 0 then 0 else 10 * DigitsValue(s[..|s| - 1]) + DigitValue(s[|s| - 1])
  }

  lemma {:induction false} DecimalRoundTrip(n: nat)
    ensures DigitsValue(Decimal(n)) == n
  {
    if n >= 10 {
      var s := Decimal(n);
      assert s[..|s| - 1] == Decimal(n / 10);
      DecimalRoundTrip(n / 10);
    }
  }

  lemma {:induction false} ZerosValue(k: nat)
    ensures DigitsValue(Zeros(k)) == 0
  {
    if k > 0 {
      assert Zeros(k)[..k - 1] == Zeros(k - 1);
      ZerosValue(k - 1);
    }
  }

  lemma {:induction false} LeadingZerosValue(k: nat, s: string)
    ensures DigitsValue(Zeros(k) + s) == DigitsValue(s)
  {
    if |s| == 0 {
      assert Zeros(k) + s == Zeros(k);
      ZerosValue(k);
    } else {
      var t := Zeros(k) + s;
      assert t[..|t| - 1] == Zeros(k) + s[..|s| - 1];
      LeadingZerosValue(k, s[..|s| - 1]);
    }
  }

  /** Zero padding loses nothing: the padded digits still denote `n`. */
  lemma ZeroPadRoundTrip(n: nat, width: nat)
    ensures DigitsValue(ZeroPad(n, width)) == n
  {
    DecimalRoundTrip(n);
    if |Decimal(n)| < width {
      LeadingZerosValue(width - |Decimal(n)|, Decimal(n));
    }
  }

  /**
   * The padded form is all digits, exactly `width` long unless `n` needs
   * more, with the decimal digits of `n` last and only zeros before them.
   */
  lemma ZeroPadShape(n: nat, width: nat)
    ensures var s := ZeroPad(n, width);
      && |s| == (if |Decimal(n)| < width then width else |Decimal(n)|)
      && AllDigits(s)
      && s[|s| - |Decimal(n)|..] == Decimal(n)
      && forall i :: 0 <= i < |s| - |Decimal(n)| ==> s[i] == '0'
  {
  }

  /** Zero-padded decimal is injective: different numbers never print the same. */
  lemma ZeroPadInjective(m: nat, n: nat, width: nat)
    requires ZeroPad(m, width) == ZeroPad(n, width)
    ensures m == n
  {
    ZeroPadRoundTrip(m, width);
    ZeroPadRoundTrip(n, width);
  }

  lemma {:induction false} DecimalLength(n: nat)
    ensures n < 10 ==> |Decimal(n)| == 1
    ensures n < 100 ==> |Decimal(n)| <= 2
    ensures n < 1000 ==> |Decimal(n)| <= 3
    ensures 100 <= n < 1000 ==> |Decimal(n)| == 3
    ensures 10 <= n < 100 ==> |Decimal(n)| == 2
    ensures n < 10000 ==> |Decimal(n)| <= 4
    ensures 1000 <= n < 10000 ==> |Decimal(n)| == 4
  {
    if n >= 10 {
      DecimalLength(n / 10);
    }
  }

  // ----- Order ids (src/Order.cpp:22-38)

  /** YYYYMMDDHHMMSS: the year as printed, the other fields padded to two digits. */
  function TimestampPrefix(t: DateTime): (s: string)
    ensures AllDigits(s)
  {
    Decimal(t.year) + ZeroPad(t.month, 2) + ZeroPad(t.day, 2)
      + ZeroPad(t.hour, 2) + ZeroPad(t.minute, 2) + ZeroPad(t.second, 2)
  }

  /**
   * The id generateOrderId returns once its counter has reached `counter`:
   * all digits, the timestamp first, and the digits after it read back as
   * the counter.
   */
  function FormatOrderId(t: DateTime, counter: nat): (id: string)
    ensures AllDigits(id)
    ensures |TimestampPrefix(t)| + 4 <= |id|
    ensures id[..|TimestampPrefix(t)|] == TimestampPrefix(t)
    ensures DigitsValue(id[|TimestampPrefix(t)|..]) == counter
  {
    var prefix := TimestampPrefix(t);
    ZeroPadRoundTrip(counter, 4);
    assert (prefix + ZeroPad(counter, 4))[|prefix|..] == ZeroPad(counter, 4);
    prefix + ZeroPad(counter, 4)
  }

  predicate AllDigits(s: string)
  {
    forall i :: 0 <= i < |s| ==> IsDigit(s[i])
  }

  lemma AllDigitsConcat(a: string, b: string)
    requires AllDigits(a) && AllDigits(b)
    ensures AllDigits(a + b)
  {
  }

  /** A field below 100 padded to two places is exactly two digits. */
  lemma TwoDigitField(n: nat)
    requires n < 100
    ensures |ZeroPad(n, 2)| == 2 && AllDigits(ZeroPad(n, 2))
  {
    DecimalLength(n);
    ZeroPadShape(n, 2);
  }

  /** With a four-digit year the timestamp is fourteen digits. */
  lemma TimestampPrefixShape(t: DateTime)
    requires IsLocalTime(t) && 1000 <= t.year <= 9999
    ensures |TimestampPrefix(t)| == 14 && AllDigits(TimestampPrefix(t))
  {
    DecimalLength(t.year);
    TwoDigitField(t.month);
    TwoDigitField(t.day);
    TwoDigitField(t.hour);
    TwoDigitField(t.minute);
    TwoDigitField(t.second);
    var s := Decimal(t.year);
    AllDigitsConcat(s, ZeroPad(t.month, 2));
    s := s + ZeroPad(t.month, 2);
    AllDigitsConcat(s, ZeroPad(t.day, 2));
    s := s + ZeroPad(t.day, 2);
    AllDigitsConcat(s, ZeroPad(t.hour, 2));
    s := s + ZeroPad(t.hour, 2);
    AllDigitsConcat(s, ZeroPad(t.minute, 2));
    s := s + ZeroPad(t.minute, 2);
    AllDigitsConcat(s, ZeroPad(t.second, 2));
  }

  /**
   * For a local time with a four-digit year and a counter of at most 9999 the
   * id is 18 digits: the 14-digit timestamp and the 4-digit counter.
   */
  lemma OrderIdLayout(t: DateTime, counter: nat)
    requires IsLocalTime(t) && 1000 <= t.year <= 9999 && counter <= 9999
    ensures |TimestampPrefix(t)| == 14
    ensures var id := FormatOrderId(t, counter);
      && |id| == 18
      && id[..14] == TimestampPrefix(t)
      && id[14..] == ZeroPad(counter, 4)
      && DigitsValue(id[14..]) == counter
      && AllDigits(id)
  {
    TimestampPrefixShape(t);
    DecimalLength(counter);
    ZeroPadShape(counter, 4);
    ZeroPadRoundTrip(counter, 4);
    var id := FormatOrderId(t, counter);
    assert AllDigits(ZeroPad(counter, 4));
    assert id[..14] == TimestampPrefix(t);
    assert id[14..] == ZeroPad(counter, 4);
    AllDigitsConcat(TimestampPrefix(t), ZeroPad(counter, 4));
  }

  /**
   * Two ids whose timestamps print equally wide but whose counters differ are
   * different, however large the counters have grown.
   */
  lemma DistinctCountersGiveDistinctIds(t1: DateTime, c1: nat, t2: DateTime, c2: nat)
    requires |TimestampPrefix(t1)| == |TimestampPrefix(t2)|
    requires c1 != c2
    ensures FormatOrderId(t1, c1) != FormatOrderId(t2, c2)
  {
    // The digits after the equally wide timestamps read back as c1 and c2.
  }

  /**
   * The static counter of generateOrderId. The source keeps one per process;
   * here its holder passes it to whoever constructs orders.
   */
  class OrderCounter {
    var counter: nat

    constructor ()
      ensures counter == 0
    {
      counter := 0;
    }

    /** ++counter, then the timestamp and the new counter (src/Order.cpp:26-38). */
    method GenerateOrderId(now: DateTime) returns (id: string)
      requires counter < IntMax
      modifies this
      ensures counter == old(counter) + 1
      ensures id == FormatOrderId(now, counter)
    {
      counter := counter + 1;
      id := TimestampPrefix(now) + ZeroPad(counter, 4);
    }
  }

  /**
   * The order constructor (src/Order.cpp:14-19): copies its arguments, starts
   * in PAID, takes a fresh id from the counter and the creation time.
   */
  method NewOrder(ids: OrderCounter, now: Now, username: string, trainId: string,
                  startStation: string, endStation: string, date: string,
                  departureTime: string, price: real, ticketCount: int) returns (o: Order)
    requires ids.counter < IntMax
    modifies ids
    ensures ids.counter == old(ids.counter) + 1
    ensures o.status == Paid
    ensures o.orderId == FormatOrderId(now.local, ids.counter)
    ensures o.createTime == now.epochSeconds
    ensures o.username == username && o.trainId == trainId
    ensures o.startStation == startStation && o.endStation == endStation
    ensures o.date == date && o.departureTime == departureTime
    ensures o.price == price && o.ticketCount == ticketCount
  {
    var id := ids.GenerateOrderId(now.local);
    o := Order(id, username, trainId, startStation, endStation, date,
               departureTime, price, ticketCount, Paid, now.epochSeconds);
  }

  /** setStatus: the status becomes `s` and every other field stays as it was. */
  function SetStatus(o: Order, s: OrderStatus): (r: Order)
    ensures r.status == s
    ensures r.(status := o.status) == o
  {
    o.(status := s)
  }
}

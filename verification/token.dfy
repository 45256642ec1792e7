/** The venue's rotating check-in token: a MAC over the court and the minute, where the MAC
    is taken to be injective and the text encoding to be a bijection. */
module Token {
  const WINDOW: int := 60
  const NANOS: int := 1_000_000_000

  /** Go's int64 quotient, which truncates towards zero. */
  function Quotient(a: int, b: int): int
    requires b > 0
  {
    if a >= 0 then a / b else -((-a) / b)
  }

  /** time.Time.Unix: whole seconds, rounded down. */
  function Unix(t: int): int
  {
    t / NANOS
  }

  /** The window a nanosecond clock reading t belongs to. */
  function WindowOf(t: int): int
  {
    Quotient(Unix(t), WINDOW)
  }

  /** How long, in nanoseconds, the token minted at t stays current. */
  function ExpiresIn(t: int): int
  {
    WINDOW * NANOS - (t - WindowOf(t) * WINDOW * NANOS)
  }

  // ------------------------------------------------------------ eight bytes

  predicate IsInt64(w: int)
  {
    -0x8000_0000_0000_0000 <= w < 0x8000_0000_0000_0000
  }

  function Power(n: nat): nat
  {
    if n == 0 then 1 else 256 * Power(n - 1)
  }

  /** The value of bytes, most significant first. */
  function Value(bytes: seq<nat>): nat
  {
    if bytes == [] then 0 else 256 * Value(bytes[..|bytes| - 1]) + bytes[|bytes| - 1]
  }

  /** Two's complement reading of eight bytes. */
  function Signed(bytes: seq<nat>): int
  {
    if Value(bytes) < 0x8000_0000_0000_0000 then Value(bytes) else Value(bytes) - 0x1_0000_0000_0000_0000
  }

  /** The last n bytes of w: what n rounds of `byte(w)` and `w >>= 8` leave. */
  function LowBytes(w: int, n: nat): (bytes: seq<nat>)
    ensures |bytes| == n && forall k :: 0 <= k < n ==> bytes[k] < 256
    decreases n
  {
    if n == 0 then [] else LowBytes(w / 256, n - 1) + [w % 256]
  }

  function Bytes(w: int): seq<nat>
  {
    LowBytes(w, 8)
  }

  /** The shifting loop of sign. */
  method Encode(window: int) returns (bytes: seq<nat>)
    requires IsInt64(window)
    ensures bytes == Bytes(window)
  {
    var buf := new nat[8](_ => 0);
    var w := window;
    var i := 7;
    while i >= 0
      invariant -1 <= i <= 7 && buf.Length == 8
      invariant LowBytes(w, i + 1) + buf[i + 1..] == Bytes(window)
    {
      buf[i] := w % 256;
      assert buf[i..] == [w % 256] + buf[i + 1..];
      w := w / 256;
      i := i - 1;
    }
    bytes := buf[..];
  }

  lemma {:induction false} LowBytesValue(w: int, n: nat)
    ensures Power(n) > 0 && Value(LowBytes(w, n)) == w % Power(n)
    decreases n
  {
    if n > 0 {
      LowBytesValue(w / 256, n - 1);
      Digits(w, Power(n - 1));
      assert LowBytes(w, n)[..n - 1] == LowBytes(w / 256, n - 1);
    }
  }

  lemma Digits(w: int, p: int)
    requires p > 0
    ensures w % (256 * p) == 256 * ((w / 256) % p) + w % 256
  {
    var q, r := (w / 256) / p, (w / 256) % p;
    assert w == 256 * (q * p + r) + w % 256;
    Remainder(w, 256 * p, q, 256 * r + w % 256);
  }

  lemma Remainder(a: int, m: int, q: int, r: int)
    requires m > 0 && 0 <= r < m && a == q * m + r
    ensures a % m == r && a / m == q
  {
    Unique(m, a / m, a % m, q, r);
  }

  lemma Unique(m: int, q: int, r: int, q': int, r': int)
    requires 0 <= r < m && 0 <= r' < m && q * m + r == q' * m + r'
    ensures q == q' && r == r'
  {
    var d := q - q';
    assert d * m == r' - r;
    if d > 0 {
      AtLeastOnce(d, m);
    } else if d < 0 {
      assert (-d) * m == r - r';
      AtLeastOnce(-d, m);
    }
  }

  lemma AtLeastOnce(d: int, m: int)
    requires d > 0 && m > 0
    ensures d * m >= m
  {
    assert (d - 1) * m >= 0;
    assert d * m == (d - 1) * m + m;
  }

  lemma SignedModulo(w: int, v: int)
    requires IsInt64(w) && v == w % 0x1_0000_0000_0000_0000
    ensures (if v < 0x8000_0000_0000_0000 then v else v - 0x1_0000_0000_0000_0000) == w
  {
  }

  lemma RoundTripOf(w: int, n: nat)
    requires IsInt64(w) && Power(n) == 0x1_0000_0000_0000_0000
    ensures Signed(LowBytes(w, n)) == w
  {
    LowBytesValue(w, n);
    SignedModulo(w, Value(LowBytes(w, n)));
  }

  /** The eight bytes determine every int64. */
  lemma BytesRoundTrip(w: int)
    requires IsInt64(w)
    ensures |Bytes(w)| == 8 && Signed(Bytes(w)) == w
  {
    EightBytes();
    RoundTripOf(w, 8);
  }

  lemma EightBytes()
    ensures Power(8) == 0x1_0000_0000_0000_0000
  {
    assert Power(2) == 0x1_0000;
    assert Power(4) == 256 * (256 * Power(2));
    assert Power(6) == 256 * (256 * Power(4));
    assert Power(8) == 256 * (256 * Power(6));
  }

  // ------------------------------------------------------------------ tokens

  type Court = seq<nat>
  type Message = seq<nat>

  predicate IsCourt(c: Court)
  {
    |c| == 16
  }

  /** What the MAC is taken over: the sixteen bytes, a dot, the eight bytes. */
  function Payload(court: Court, window: int): Message
  {
    court + [46] + Bytes(window)
  }

  lemma MessageIsInjective(f: Court, g: Court, v: int, w: int)
    requires IsCourt(f) && IsCourt(g) && IsInt64(v) && IsInt64(w)
    ensures Payload(f, v) == Payload(g, w) <==> f == g && v == w
  {
    BytesRoundTrip(v);
    BytesRoundTrip(w);
    if Payload(f, v) == Payload(g, w) {
      assert f == Payload(f, v)[..16] && g == Payload(g, w)[..16];
      assert Bytes(v) == Payload(f, v)[17..] && Bytes(w) == Payload(g, w)[17..];
    }
  }

  /** An authority over one secret: mac is its keyed hash, text the encoding of the bytes,
      and bytes undoes it. */
  datatype Minter = Minter(enabled: bool, mac: Message -> nat, text: nat -> string, bytes: string -> Raw)

  datatype Raw = Malformed | Decoded(value: nat)

  ghost predicate Ideal(m: Minter)
  {
    && (forall a, b :: m.mac(a) == m.mac(b) ==> a == b)
    && (forall n :: m.text(n) != "" && m.bytes(m.text(n)) == Decoded(n))
  }

  function Mint(m: Minter, court: Court, now: int): string
  {
    if !m.enabled then "" else m.text(m.mac(Payload(court, WindowOf(now))))
  }

  function Verify(m: Minter, token: string, court: Court, now: int): bool
  {
    if !m.enabled || token == "" then false
    else
      match m.bytes(token)
      case Malformed => false
      case Decoded(raw) =>
        var w := WindowOf(now);
        raw == m.mac(Payload(court, w)) || raw == m.mac(Payload(court, w - 1))
  }

  /** The readings a Go clock can give, to the extent the window arithmetic needs. */
  predicate IsClock(t: int)
  {
    IsInt64(WindowOf(t)) && IsInt64(WindowOf(t) - 1)
  }

  /** A token opens exactly its own court, in its own window and the next. */
  lemma VerifiesIff(m: Minter, f: Court, t: int, g: Court, now: int)
    requires m.enabled && Ideal(m) && IsCourt(f) && IsCourt(g) && IsClock(t) && IsClock(now)
    ensures Verify(m, Mint(m, f, t), g, now) <==> f == g && 0 <= WindowOf(now) - WindowOf(t) <= 1
  {
    var a := Payload(f, WindowOf(t));
    MessageIsInjective(f, g, WindowOf(t), WindowOf(now));
    MessageIsInjective(f, g, WindowOf(t), WindowOf(now) - 1);
    assert m.bytes(m.text(m.mac(a))) == Decoded(m.mac(a));
    forall b ensures m.mac(a) == m.mac(b) <==> a == b {
    }
  }

  /** Without a secret nothing is minted and nothing verifies. */
  lemma DisabledFailsClosed(m: Minter, token: string, court: Court, now: int)
    requires !m.enabled
    ensures Mint(m, court, now) == "" && !Verify(m, token, court, now)
  {
  }

  lemma WindowBounds(t: int)
    requires t >= 0
    ensures WindowOf(t) >= 0 && WindowOf(t) == t / (WINDOW * NANOS)
    ensures WindowOf(t) * WINDOW * NANOS <= t < (WindowOf(t) + 1) * WINDOW * NANOS
  {
  }

  /** From 1970 on, a token is current for ExpiresIn and valid for exactly one window more,
      which makes its life longer than one minute and at most two. */
  lemma LifetimeIsExact(m: Minter, f: Court, t: int, now: int)
    requires m.enabled && Ideal(m) && IsCourt(f) && IsClock(t) && IsClock(now) && 0 <= t <= now
    ensures Verify(m, Mint(m, f, t), f, now) <==> now < t + ExpiresIn(t) + WINDOW * NANOS
    ensures Mint(m, f, now) == Mint(m, f, t) <==> now < t + ExpiresIn(t)
    ensures WINDOW * NANOS < ExpiresIn(t) + WINDOW * NANOS <= 2 * WINDOW * NANOS
  {
    VerifiesIff(m, f, t, f, now);
    WindowBounds(t);
    WindowBounds(now);
    SameTokenIff(m, f, t, now);
  }

  lemma SameTokenIff(m: Minter, f: Court, t: int, now: int)
    requires m.enabled && Ideal(m) && IsCourt(f) && IsClock(t) && IsClock(now)
    ensures Mint(m, f, now) == Mint(m, f, t) <==> WindowOf(now) == WindowOf(t)
  {
    var a, b := Payload(f, WindowOf(now)), Payload(f, WindowOf(t));
    MessageIsInjective(f, f, WindowOf(now), WindowOf(t));
    assert m.bytes(m.text(m.mac(a))) == Decoded(m.mac(a)) && m.bytes(m.text(m.mac(b))) == Decoded(m.mac(b));
  }

  /** The comment calls the window a floor. The quotient truncates, so the two agree exactly
      from 1970 on and at whole minutes before it. */
  lemma WindowIsFloorIff(t: int)
    ensures WindowOf(t) == Unix(t) / WINDOW <==> t >= 0 || Unix(t) % WINDOW == 0
  {
  }

  /** Truncation merges the windows on either side of the epoch and rounds earlier readings
      up, so the promised end of a token's life is the true one exactly when it was minted
      less than two minutes before the epoch, or later. */
  lemma LifetimeFormulaIff(m: Minter, f: Court, t: int)
    requires m.enabled && Ideal(m) && IsCourt(f) && IsClock(t)
    ensures (forall now :: IsClock(now) && t <= now ==>
               (Verify(m, Mint(m, f, t), f, now) <==> now < t + ExpiresIn(t) + WINDOW * NANOS))
            <==> Unix(t) > -2 * WINDOW
  {
    if WindowOf(t) >= -1 {
      forall now | IsClock(now) && t <= now
        ensures Verify(m, Mint(m, f, t), f, now) <==> now < t + ExpiresIn(t) + WINDOW * NANOS
      {
        EndsAsPromised(m, f, t, now);
      }
    } else {
      var now := EndsSooner(m, f, t);
    }
  }

  lemma EndsAsPromised(m: Minter, f: Court, t: int, now: int)
    requires m.enabled && Ideal(m) && IsCourt(f) && IsClock(t) && IsClock(now) && t <= now && WindowOf(t) >= -1
    ensures Verify(m, Mint(m, f, t), f, now) <==> now < t + ExpiresIn(t) + WINDOW * NANOS
  {
    VerifiesIff(m, f, t, f, now);
    WindowAtMost(now, WindowOf(t) + 1);
  }

  lemma EndsSooner(m: Minter, f: Court, t: int) returns (now: int)
    requires m.enabled && Ideal(m) && IsCourt(f) && IsClock(t) && WindowOf(t) < -1
    ensures IsClock(now) && t <= now < t + ExpiresIn(t) + WINDOW * NANOS && !Verify(m, Mint(m, f, t), f, now)
  {
    var w := WindowOf(t);
    now := ((w + 1) * WINDOW + 1) * NANOS;
    WindowAfter(w + 1);
    VerifiesIff(m, f, t, f, now);
  }

  lemma WindowAtMost(t: int, k: int)
    requires k >= 0
    ensures WindowOf(t) <= k <==> t < (k + 1) * WINDOW * NANOS
  {
  }

  lemma WindowAfter(k: int)
    requires k < 0
    ensures WindowOf((k * WINDOW + 1) * NANOS) == k + 1
  {
    assert Unix((k * WINDOW + 1) * NANOS) == k * WINDOW + 1;
    assert -(k * WINDOW + 1) == 60 * (-k - 1) + 59;
  }

  /** A token lives at most two minutes exactly when it was not minted before the epoch, or
      was minted in the first second of a minute. */
  lemma TwoMinutesIff(t: int)
    ensures ExpiresIn(t) + WINDOW * NANOS <= 2 * WINDOW * NANOS <==> t >= 0 || Unix(t) % WINDOW == 0
  {
  }

  /** Before 1970 the lifetime can exceed two minutes: the windows on either side of the
      epoch share the number 0. */
  lemma EpochTokenOutlives(m: Minter, f: Court)
    requires m.enabled && Ideal(m) && IsCourt(f)
    ensures var t, now := -59 * NANOS, 119 * NANOS;
            Verify(m, Mint(m, f, t), f, now) && now - t > 2 * WINDOW * NANOS
  {
    VerifiesIff(m, f, -59 * NANOS, f, 119 * NANOS);
  }
}

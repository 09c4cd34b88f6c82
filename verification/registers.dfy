/** Interpretation of raw 16-bit register words: the two's-complement
    conversion `toSignedInt` (LangjiACController.php, lines 309-312) and the
    per-address scaling tables of `readSensors` (lines 162-168) and
    `readConfiguration` (lines 194-218). A PHP float quotient is modelled by
    the exact rational it approximates. */
module Registers {

  /** `toSignedInt`: a 16-bit word read as two's complement. */
  function ToSignedInt(v: int): (r: int)
    requires 0 <= v < 0x1_0000
    ensures -0x8000 <= r < 0x8000
    ensures (r - v) % 0x1_0000 == 0
    ensures v < 0x8000 ==> r == v
  {
    if v > 32767 then v - 65536 else v
  }

  /** The contract of `ToSignedInt` pins its result down: it is the only
      value in the signed range congruent to the input modulo 65536. */
  lemma ToSignedIntUnique(v: int, r: int)
    requires 0 <= v < 0x1_0000
    requires -0x8000 <= r < 0x8000 && (r - v) % 0x1_0000 == 0
    ensures r == ToSignedInt(v)
  {
    var s := ToSignedInt(v);
    assert (r - s) % 0x1_0000 == 0 by {
      assert r - s == (r - v) - (s - v);
    }
  }

  /** The six ways a register word is turned into a value. */
  datatype Scaling =
    | SignedTenths   // two's complement, then divided by 10
    | Hundredths     // unsigned, divided by 100
    | Tenths         // unsigned, divided by 10
    | Per65280       // unsigned, divided by 65280 (0xFF00)
    | BaudRate       // index into the baud-rate list, or the word itself
    | Unscaled       // the word itself
  {
    predicate Divides() {
      this in {SignedTenths, Hundredths, Tenths, Per65280}
    }

    function Divisor(): real
      requires Divides()
    {
      match this
      case SignedTenths => 10.0
      case Hundredths => 100.0
      case Tenths => 10.0
      case Per65280 => 65280.0
    }
  }

  /** A decoded register: a PHP int or a PHP float. */
  datatype Value = IntValue(n: int) | FloatValue(x: real)

  /** The baud rates configuration register 0x0E selects among. */
  const BaudRates: seq<int> := [4800, 9600, 19200, 38400]

  /** The scaling `readSensors` applies at an address. */
  function SensorScaling(address: int): Scaling {
    if address in {0x0000, 0x0001, 0x0006} then SignedTenths
    else if address in {0x0002, 0x0003, 0x0004} then Hundredths
    else if address == 0x0005 then Tenths
    else if address == 0x0023 then Per65280
    else Unscaled
  }

  /** The scaling `readConfiguration` applies at an address. */
  function ConfigScaling(address: int): Scaling {
    if 0x0000 <= address <= 0x0005 then SignedTenths
    else if 0x0006 <= address <= 0x0008 then Tenths
    else if address == 0x000E then BaudRate
    else if address in {0x0012, 0x0013} then Tenths
    else Unscaled
  }

  /** The word a value was decoded from, when it can be told. */
  function Unscale(s: Scaling, v: Value): int {
    match v
    case FloatValue(x) =>
      if !s.Divides() then -1
      else
        var n := (x * s.Divisor()).Floor;
        if s == SignedTenths then n % 0x1_0000 else n
    case IntValue(n) =>
      if s == Unscaled then n
      else if s == BaudRate then IndexOrSelf(BaudRates, n)
      else -1
  }

  /** The position of n in xs, or n itself when it does not occur. */
  function IndexOrSelf(xs: seq<int>, n: int): (r: int)
    ensures n in xs ==> 0 <= r < |xs| && xs[r] == n
    ensures n !in xs ==> r == n
  {
    if n !in xs then n
    else if xs[0] == n then 0
    else 1 + IndexOrSelf(xs[1..], n)
  }

  /** One word, as the integer `unpack('n', …)` yields, turned into a value
      as the `match` and `switch` arms do. */
  function Scale(s: Scaling, w: int): (v: Value)
    requires 0 <= w < 0x1_0000
    ensures s.Divides() <==> v.FloatValue?
    ensures s.Divides() ==>
              v.x * s.Divisor() == (if s == SignedTenths then ToSignedInt(w) else w) as real
    ensures s == BaudRate ==> v == IntValue(if w < |BaudRates| then BaudRates[w] else w)
    ensures s == Unscaled ==> v == IntValue(w)
  {
    match s
    case SignedTenths => FloatValue(ToSignedInt(w) as real / 10.0)
    case Hundredths => FloatValue(w as real / 100.0)
    case Tenths => FloatValue(w as real / 10.0)
    case Per65280 => FloatValue(w as real / 65280.0)
    case BaudRate => IntValue(if w < |BaudRates| then BaudRates[w] else w)
    case Unscaled => IntValue(w)
  }

  /** The raw word can be recovered from every decoded value except a baud
      rate register whose word is itself one of the listed rates. */
  lemma ScaleRoundTrip(s: Scaling, w: int)
    requires 0 <= w < 0x1_0000
    ensures Unscale(s, Scale(s, w)) == w <==> !(s == BaudRate && w >= |BaudRates| && w in BaudRates)
  {
    match s
    case SignedTenths =>
      var t := ToSignedInt(w);
      assert (t as real / 10.0 * 10.0).Floor == t;
      assert t % 0x1_0000 == w;
    case Hundredths =>
      assert (w as real / 100.0 * 100.0).Floor == w;
    case Tenths =>
      assert (w as real / 10.0 * 10.0).Floor == w;
    case Per65280 =>
      assert (w as real / 65280.0 * 65280.0).Floor == w;
    case BaudRate =>
      if w < |BaudRates| {
        assert BaudRates[w] in BaudRates;
      }
    case Unscaled =>
  }

  /** The sensor examples: 0xFFF6 at address 0x0000 is -1.0 and 2500 at
      address 0x0002 is 25.0. */
  lemma SensorScalingExamples()
    ensures Scale(SensorScaling(0x0000), 0xFFF6) == FloatValue(-1.0)
    ensures Scale(SensorScaling(0x0002), 2500) == FloatValue(25.0)
  {
  }

  /** The baud-rate examples: word 2 at configuration address 0x000E is
      19200, and word 5, past the end of the list, stays 5. */
  lemma ConfigScalingExamples()
    ensures Scale(ConfigScaling(0x000E), 2) == IntValue(19200)
    ensures Scale(ConfigScaling(0x000E), 5) == IntValue(5)
  {
  }

  /** The baud-rate register cannot tell index 1 from a raw word 9600: both
      decode to 9600. */
  lemma BaudRateAmbiguous()
    ensures Scale(BaudRate, 1) == Scale(BaudRate, 9600) == IntValue(9600)
  {
  }
}

/** Decimal numerals, and the length-prefixed join that names a feature cross. */
module Text {
  import opened Outcomes

  function Digit(d: nat): char
    requires d < 10
  {
    ['0', '1', '2', '3', '4', '5', '6', '7', '8', '9'][d]
  }

  /** `str(n)` for a non-negative integer. */
  function Decimal(n: nat): string {
    if n < 10 then [Digit(n)] else Decimal(n / 10) + [Digit(n % 10)]
  }

  predicate IsDigit(c: char) {
    '0' <= c <= '9'
  }

  function DigitValue(c: char): nat
    requires IsDigit(c)
  {
    c as int - '0' as int
  }

  function Value(s: string): nat
    requires forall c :: c in s ==> IsDigit(c)
  {
    if s == [] then 0 else 10 * Value(s[..|s| - 1]) + DigitValue(s[|s| - 1])
  }

  /** Numerals consist of digits and read back as their number. */
  lemma {:induction false} DecimalReadsBack(n: nat)
    ensures Decimal(n) != [] && forall c :: c in Decimal(n) ==> IsDigit(c)
    ensures Value(Decimal(n)) == n
  {
    if n >= 10 {
      DecimalReadsBack(n / 10);
      var front := Decimal(n / 10);
      assert Decimal(n)[..|front|] == front;
    } else {
      assert Decimal(n)[..0] == [];
    }
  }

  /** `f"{len(s)}:{s}"`. */
  function Component(s: string): string {
    Decimal(|s|) + ":" + s
  }

  /** The components joined by `|`. */
  function Join(parts: seq<string>): string {
    if parts == [] then ""
    else if |parts| == 1 then Component(parts[0])
    else Component(parts[0]) + "|" + Join(parts[1..])
  }

  /** How many characters from the front are digits. */
  function DigitCount(s: string): (n: nat)
    ensures n <= |s| && forall c :: c in s[..n] ==> IsDigit(c)
  {
    if s == [] || !IsDigit(s[0]) then 0
    else
      var n := DigitCount(s[1..]);
      assert s[..n + 1] == [s[0]] + s[1..][..n];
      n + 1
  }

  /** Reads one component off the front: its text, and what follows. */
  function ReadComponent(s: string): (r: Option<(string, string)>)
    ensures r.Some? ==> |r.value.1| < |s|
  {
    var n := DigitCount(s);
    if n == |s| || s[n] != ':' then None
    else
      var length, body := Value(s[..n]), s[n + 1..];
      if |body| < length then None else Some((body[..length], body[length..]))
  }

  /** Reads a non-empty joined string back into its components. */
  function Split(s: string): Option<seq<string>>
    decreases |s|
  {
    match ReadComponent(s)
    case None => None
    case Some((part, rest)) =>
      if rest == "" then Some([part])
      else if rest[0] != '|' then None
      else
        match Split(rest[1..])
        case None => None
        case Some(parts) => Some([part] + parts)
  }

  lemma {:induction false} DigitCountStops(digits: string, rest: string)
    requires forall c :: c in digits ==> IsDigit(c)
    requires rest == [] || !IsDigit(rest[0])
    ensures DigitCount(digits + rest) == |digits|
  {
    if digits != [] {
      assert (digits + rest)[1..] == digits[1..] + rest;
      DigitCountStops(digits[1..], rest);
    } else {
      assert digits + rest == rest;
    }
  }

  lemma ReadsComponent(part: string, rest: string)
    ensures ReadComponent(Component(part) + rest) == Some((part, rest))
  {
    var numeral, s := Decimal(|part|), Component(part) + rest;
    DecimalReadsBack(|part|);
    assert s == numeral + (":" + part + rest);
    DigitCountStops(numeral, ":" + part + rest);
    assert s[..|numeral|] == numeral && s[|numeral| + 1..] == part + rest;
  }

  lemma SplitsLast(part: string)
    ensures Split(Component(part)) == Some([part])
  {
    assert Component(part) + "" == Component(part);
    ReadsComponent(part, "");
  }

  lemma SplitsFirst(part: string, more: string, parts: seq<string>)
    requires Split(more) == Some(parts)
    ensures Split(Component(part) + "|" + more) == Some([part] + parts)
  {
    hide Component, ReadComponent;
    var rest := "|" + more;
    assert Component(part) + "|" + more == Component(part) + rest;
    ReadsComponent(part, rest);
    assert rest[1..] == more;
  }

  /** The joined string determines its components, whatever characters they hold. */
  lemma {:induction false} SplitJoin(parts: seq<string>)
    requires parts != []
    ensures Split(Join(parts)) == Some(parts)
  {
    if |parts| == 1 {
      SplitsLast(parts[0]);
      assert parts == [parts[0]];
    } else {
      SplitJoin(parts[1..]);
      SplitsFirst(parts[0], Join(parts[1..]), parts[1..]);
      assert parts == [parts[0]] + parts[1..];
    }
  }

  /** Distinct component lists never share a joined string. */
  lemma JoinInjective(a: seq<string>, b: seq<string>)
    ensures Join(a) == Join(b) <==> a == b
  {
    if a != [] {
      SplitJoin(a);
    }
    if b != [] {
      SplitJoin(b);
    }
  }
}

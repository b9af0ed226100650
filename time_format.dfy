/** The `mm:ss` text of the timer display (`formatTime`, App.jsx lines
    135-139), built from the two JavaScript string operations it uses. */
module TimeFormat {

  predicate IsDigit(c: char)
  {
    '0' <= c <= '9'
  }

  predicate AllDigits(s: string)
  {
    forall i :: 0 <= i < |s| ==> IsDigit(s[i])
  }

  function DigitChar(d: int): (c: char)
    requires 0 <= d < 10
    ensures IsDigit(c) && c as int - '0' as int == d
  {
    (d + '0' as int) as char
  }

  /** The number a string of decimal digits denotes, read most significant
      digit first; the empty string denotes 0. */
  function Value(s: string): int
  {
    if s == [] then 0 else 10 * Value(s[..|s| - 1]) + (s[|s| - 1] as int - '0' as int)
  }

  /** `Number.prototype.toString()` of a non-negative integer: its shortest
      decimal digit string. */
  function Decimal(n: nat): (r: string)
    ensures 1 <= |r| && AllDigits(r) && Value(r) == n
    ensures |r| > 1 ==> r[0] != '0'
    ensures n < 100 ==> |r| <= 2
  {
    if n < 10 then [DigitChar(n)]
    else
      var r := Decimal(n / 10) + [DigitChar(n % 10)];
      assert r[..|r| - 1] == Decimal(n / 10);
      r
  }

  /** k copies of c. */
  function Repeat(c: char, k: nat): (r: string)
    ensures |r| == k && forall i :: 0 <= i < k ==> r[i] == c
  {
    if k == 0 then [] else [c] + Repeat(c, k - 1)
  }

  /** `String.prototype.padStart(width, c)`: s with copies of c in front, up
      to width characters; a string already that long is returned as it is. */
  function PadStart(s: string, width: nat, c: char): (r: string)
    ensures |r| == if |s| < width then width else |s|
    ensures r[|r| - |s|..] == s
    ensures forall i :: 0 <= i < |r| - |s| ==> r[i] == c
  {
    if |s| < width then
      var r := Repeat(c, width - |s|) + s;
      assert r[|r| - |s|..] == s;
      r
    else s
  }

  /** Zeros in front of a digit string do not change its value. */
  lemma {:induction false} LeadingZeros(z: string, s: string)
    requires forall i :: 0 <= i < |z| ==> z[i] == '0'
    requires AllDigits(s)
    ensures AllDigits(z + s) && Value(z + s) == Value(s)
    decreases |z| + |s|
  {
    if s == [] {
      assert z + s == z;
      if z != [] {
        LeadingZeros(z[..|z| - 1], []);
        assert z[..|z| - 1] + [] == z[..|z| - 1];
      }
    } else {
      var t := s[..|s| - 1];
      assert (z + s)[..|z + s| - 1] == z + t;
      LeadingZeros(z, t);
    }
  }

  lemma PadZerosKeepsValue(s: string, width: nat)
    requires AllDigits(s)
    ensures AllDigits(PadStart(s, width, '0'))
    ensures Value(PadStart(s, width, '0')) == Value(s)
  {
    var r := PadStart(s, width, '0');
    var z := r[..|r| - |s|];
    assert r == z + s;
    LeadingZeros(z, s);
  }

  /** In `m + ":" + s` with a two-character s, the text before the last three
      characters is m and the last two are s. */
  lemma ColonSplit(m: string, s: string)
    requires AllDigits(m) && AllDigits(s) && |s| == 2
    ensures var r := m + ":" + s;
            |r| == |m| + 3 && r[|r| - 3] == ':' &&
            AllDigits(r[..|r| - 3]) && Value(r[..|r| - 3]) == Value(m) &&
            AllDigits(r[|r| - 2..]) && Value(r[|r| - 2..]) == Value(s)
  {
    var r := m + ":" + s;
    assert r[..|m|] == m;
    assert r[|m| + 1..] == s;
  }

  /** One field of the display: `n.toString().padStart(2, '0')`. It reads back
      as n, and is exactly two characters for n below 100. */
  function TwoDigits(n: nat): (r: string)
    ensures AllDigits(r) && Value(r) == n
    ensures |r| >= 2 && (n < 100 ==> |r| == 2)
  {
    PadZerosKeepsValue(Decimal(n), 2);
    PadStart(Decimal(n), 2, '0')
  }

  /** `formatTime`: the whole minutes and the remaining seconds, each padded
      with zeros to two digits, joined by ':'. */
  function FormatTime(total: nat): string
  {
    TwoDigits(total / 60) + ":" + TwoDigits(total % 60)
  }

  /** Minutes and seconds below 100 joined by ':' read back as the two numbers. */
  lemma ReadBack(mins: nat, secs: nat)
    requires secs < 100
    ensures var r := TwoDigits(mins) + ":" + TwoDigits(secs);
            |r| >= 5 && r[|r| - 3] == ':' && (mins < 100 ==> |r| == 5) &&
            AllDigits(r[..|r| - 3]) && Value(r[..|r| - 3]) == mins &&
            AllDigits(r[|r| - 2..]) && Value(r[|r| - 2..]) == secs
  {
    ColonSplit(TwoDigits(mins), TwoDigits(secs));
  }

  /** The text of `formatTime` reads back as total: the digits before the
      colon are the whole minutes, the two digits after it the seconds, below
      60. Below 100 minutes the text is exactly `mm:ss`. */
  lemma FormatTimeRoundTrip(total: nat)
    ensures var r := FormatTime(total);
            |r| >= 5 && r[|r| - 3] == ':' && (total < 6000 ==> |r| == 5) &&
            AllDigits(r[..|r| - 3]) && AllDigits(r[|r| - 2..]) &&
            Value(r[|r| - 2..]) < 60 &&
            Value(r[..|r| - 3]) * 60 + Value(r[|r| - 2..]) == total
  {
    var mins, secs := total / 60, total % 60;
    assert mins * 60 + secs == total && secs < 60;
    assert total < 6000 ==> mins < 100;
    ReadBack(mins, secs);
    assert FormatTime(total) == TwoDigits(mins) + ":" + TwoDigits(secs);
  }
}

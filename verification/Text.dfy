/** String facts shared by the codecs: searching, splitting, digits and object ids. */
module Text {
  import opened Wrappers

  predicate Lacks(s: string, c: char) {
    forall i | 0 <= i < |s| :: s[i] != c
  }

  /** `indexOf` of one character. */
  function FirstIndex(s: string, c: char): (r: Option<nat>)
    ensures r.None? ==> forall i | 0 <= i < |s| :: s[i] != c
    ensures r.Some? ==> r.value < |s| && s[r.value] == c && forall i | 0 <= i < r.value :: s[i] != c
  {
    if s == [] then None
    else if s[0] == c then Some(0)
    else
      match FirstIndex(s[1..], c)
      case None => None
      case Some(i) => Some(i + 1)
  }

  /** `lastIndexOf` of one character. */
  function LastIndex(s: string, c: char): (r: Option<nat>)
    ensures r.None? ==> forall i | 0 <= i < |s| :: s[i] != c
    ensures r.Some? ==> r.value < |s| && s[r.value] == c && forall i | r.value < i < |s| :: s[i] != c
  {
    if s == [] then None
    else if s[|s| - 1] == c then Some(|s| - 1)
    else LastIndex(s[..|s| - 1], c)
  }

  /** Where a blank line starts: `indexOf('\n\n')`. */
  function BlankLine(s: string): (r: Option<nat>)
    ensures r.None? ==> forall i | 0 <= i < |s| - 1 :: !(s[i] == '\n' && s[i + 1] == '\n')
    ensures r.Some? ==>
              && r.value + 1 < |s| && s[r.value] == '\n' && s[r.value + 1] == '\n'
              && forall i | 0 <= i < r.value :: !(s[i] == '\n' && s[i + 1] == '\n')
  {
    if |s| < 2 then None
    else if s[0] == '\n' && s[1] == '\n' then Some(0)
    else
      match BlankLine(s[1..])
      case None => None
      case Some(i) =>
        assert s[1..][i] == s[i + 1] && s[1..][i + 1] == s[i + 2];
        assert forall k | 1 <= k < i + 1 :: s[k] == s[1..][k - 1] && s[k + 1] == s[1..][k];
        Some(i + 1)
  }

  /** `split('\n')`. */
  function Lines(s: string): (ls: seq<string>)
    ensures |ls| > 0
    ensures forall l | l in ls :: Lacks(l, '\n')
  {
    if s == [] then [""]
    else
      var rest := Lines(s[1..]);
      if s[0] == '\n' then [""] + rest
      else
        var first := [s[0]] + rest[0];
        assert rest[0] in rest;
        assert Lacks(first, '\n');
        assert forall l | l in rest[1..] :: l in rest;
        [first] + rest[1..]
  }

  /** `join('\n')`. */
  function Joined(ls: seq<string>): string {
    if |ls| == 0 then ""
    else if |ls| == 1 then ls[0]
    else ls[0] + "\n" + Joined(ls[1..])
  }

  lemma {:induction false} JoinLines(s: string)
    ensures Joined(Lines(s)) == s
  {
    if s != [] {
      JoinLines(s[1..]);
      var rest := Lines(s[1..]);
      assert s == [s[0]] + s[1..];
      if s[0] == '\n' {
        assert ([""] + rest)[1..] == rest;
      } else {
        assert ([[s[0]] + rest[0]] + rest[1..])[1..] == rest[1..];
      }
    }
  }

  lemma {:induction false} LinesOfFirst(l: string, tail: string)
    requires Lacks(l, '\n')
    ensures Lines(l + "\n" + tail) == [l] + Lines(tail)
  {
    var s := l + "\n" + tail;
    if l == [] {
      assert s[1..] == tail;
    } else {
      assert forall i | 0 <= i < |l[1..]| :: l[1..][i] == l[i + 1];
      LinesOfFirst(l[1..], tail);
      assert s[1..] == l[1..] + "\n" + tail;
      assert s[0] == l[0] && l == [l[0]] + l[1..];
    }
  }

  lemma {:induction false} LinesOfOne(l: string)
    requires Lacks(l, '\n')
    ensures Lines(l) == [l]
  {
    if l != [] {
      assert forall i | 0 <= i < |l[1..]| :: l[1..][i] == l[i + 1];
      LinesOfOne(l[1..]);
      assert l == [l[0]] + l[1..];
    }
  }

  predicate IsDigit(c: char) { '0' <= c <= '9' }

  predicate AllDigits(s: string) { forall i | 0 <= i < |s| :: IsDigit(s[i]) }

  predicate IsHex(c: char) { IsDigit(c) || 'a' <= c <= 'f' }

  /** A full lower-case SHA-1 or SHA-256 object name. */
  predicate IsOid(s: string) {
    && (|s| == 40 || |s| == 64)
    && forall i | 0 <= i < |s| :: IsHex(s[i])
  }

  function DigitChar(d: nat): (c: char)
    requires d < 10
    ensures IsDigit(c) && c as int == '0' as int + d
  {
    ('0' as int + d) as char
  }

  function DigitValue(c: char): (d: nat)
    requires IsDigit(c)
    ensures d < 10
  {
    c as int - '0' as int
  }

  /** `String(n)` of a natural number. */
  function Decimal(n: nat): (s: string)
    ensures |s| > 0 && AllDigits(s)
  {
    if n < 10 then [DigitChar(n)] else Decimal(n / 10) + [DigitChar(n % 10)]
  }

  /** The number a run of digits writes; leading zeros are allowed. */
  function Number(s: string): nat
    requires AllDigits(s)
  {
    if s == [] then 0
    else 10 * Number(s[..|s| - 1]) + DigitValue(s[|s| - 1])
  }

  lemma {:induction false} NumberOfDecimal(n: nat)
    ensures Number(Decimal(n)) == n
  {
    if n < 10 {
      assert Decimal(n)[..0] == "";
    } else {
      NumberOfDecimal(n / 10);
      assert Decimal(n)[..|Decimal(n)| - 1] == Decimal(n / 10);
    }
  }

  /** A number is written without a leading zero in exactly one way. */
  lemma {:induction false} DecimalOfNumber(s: string)
    requires s != "" && AllDigits(s) && s[0] != '0'
    ensures Number(s) > 0 && Decimal(Number(s)) == s
  {
    var front, last := s[..|s| - 1], s[|s| - 1];
    assert s == front + [last];
    if front == "" {
      assert Number(front) == 0;
    } else {
      DecimalOfNumber(front);
      assert Number(s) / 10 == Number(front) && Number(s) % 10 == DigitValue(last);
    }
  }

  /** The object names are the runs of forty or sixty-four lower-case hexadecimal digits. */
  lemma OidExactly(s: string)
    ensures IsOid(s) <==> (|s| == 40 || |s| == 64) && forall c | c in s :: c in "0123456789abcdef"
  {
    forall i | 0 <= i < |s|
      ensures IsHex(s[i]) <==> s[i] in "0123456789abcdef"
    {
      HexExactly(s[i]);
    }
    if forall c | c in s :: c in "0123456789abcdef" {
      assert forall i | 0 <= i < |s| :: s[i] in s;
    }
  }

  lemma HexExactly(c: char)
    ensures IsHex(c) <==> c in "0123456789abcdef"
  {
    var digits := "0123456789abcdef";
    assert |digits| == 16;
    if IsHex(c) {
      var i := if IsDigit(c) then c as int - '0' as int else 10 + (c as int - 'a' as int);
      assert digits[i] == c;
    }
  }
}

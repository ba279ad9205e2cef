/**
 The ordered members of a migrated patch bundle (V18PatchTranslator.ts): attachments under
 zero-padded indexes, then the patch itself. A bundle wants its paths in code-unit order.
 */
module BundleMembers {
  import opened Text

  /** Code-unit order of strings. */
  predicate Less(a: string, b: string) {
    if b == "" then false
    else if a == "" then true
    else a[0] < b[0] || (a[0] == b[0] && Less(a[1..], b[1..]))
  }

  function Zeros(n: nat): (s: string)
    ensures |s| == n && AllDigits(s)
  {
    if n == 0 then "" else Zeros(n - 1) + "0"
  }

  /** `padStart(8, '0')` */
  function PadStart8(s: string): string {
    if |s| < 8 then Zeros(8 - |s|) + s else s
  }

  function MemberPath(index: nat): string {
    "attachments/" + PadStart8(Decimal(index))
  }

  /** Each sorted attachment handle under its index, and the patch last. */
  function Members(handles: seq<string>, patchHandle: string): seq<(string, string)> {
    seq(|handles|, i requires 0 <= i < |handles| => (MemberPath(i), handles[i])) + [("patch", patchHandle)]
  }

  lemma {:induction false} DecimalLength(n: nat, k: nat)
    ensures n < Power10(k) && k > 0 ==> |Decimal(n)| <= k
    ensures n >= Power10(k) ==> |Decimal(n)| > k
    decreases k
  {
    assert Power10(1) == 10;
    if n >= 10 {
      if k > 1 {
        DecimalLength(n / 10, k - 1);
      }
    }
  }

  function Power10(k: nat): (p: nat)
    ensures p > 0
  {
    if k == 0 then 1 else 10 * Power10(k - 1)
  }

  lemma {:induction false} NumberOfPadded(zeros: nat, s: string)
    requires AllDigits(s)
    ensures AllDigits(Zeros(zeros) + s) && Number(Zeros(zeros) + s) == Number(s)
    decreases |s|, zeros
  {
    if s != "" {
      NumberOfPadded(zeros, s[..|s| - 1]);
      assert (Zeros(zeros) + s)[..zeros + |s| - 1] == Zeros(zeros) + s[..|s| - 1];
    } else if zeros > 0 {
      NumberOfPadded(zeros - 1, "");
      assert Zeros(zeros) + s == Zeros(zeros) && Zeros(zeros)[..zeros - 1] == Zeros(zeros - 1) == Zeros(zeros - 1) + "";
    }
  }

  lemma {:induction false} LessByLastChar(a: string, b: string)
    requires |a| == |b| > 0
    ensures var i := |a| - 1;
            Less(a, b) <==> Less(a[..i], b[..i]) || (a[..i] == b[..i] && a[i] < b[i])
  {
    var i := |a| - 1;
    if i == 0 {
      assert a[..i] == "" == b[..i];
    } else {
      LessByLastChar(a[1..], b[1..]);
      assert a[1..][..i - 1] == a[..i][1..] && b[1..][..i - 1] == b[..i][1..];
      assert a[..i] == b[..i] <==> a[0] == b[0] && a[..i][1..] == b[..i][1..] by {
        assert a[..i] == [a[0]] + a[..i][1..] && b[..i] == [b[0]] + b[..i][1..];
      }
    }
  }

  /** Digit strings of one length are ordered as the numbers they write. */
  lemma {:induction false} LessIsNumeric(a: string, b: string)
    requires |a| == |b| && AllDigits(a) && AllDigits(b)
    ensures Less(a, b) <==> Number(a) < Number(b)
    ensures a == b <==> Number(a) == Number(b)
  {
    if a != "" {
      var i := |a| - 1;
      LessByLastChar(a, b);
      LessIsNumeric(a[..i], b[..i]);
      assert a == a[..i] + [a[i]] && b == b[..i] + [b[i]];
    }
  }

  lemma {:induction false} LessAfterPrefix(p: string, a: string, b: string)
    ensures Less(p + a, p + b) <==> Less(a, b)
  {
    if p == "" {
      assert p + a == a && p + b == b;
    } else {
      LessAfterPrefix(p[1..], a, b);
      assert (p + a)[1..] == p[1..] + a && (p + b)[1..] == p[1..] + b;
    }
  }

  lemma HundredMillion()
    ensures Power10(8) == 100_000_000
  {
    assert Power10(2) == 100;
    assert Power10(4) == 10_000;
    assert Power10(6) == 1_000_000;
  }

  lemma PaddedIndex(n: nat)
    requires n < 100_000_000
    ensures |PadStart8(Decimal(n))| == 8 && AllDigits(PadStart8(Decimal(n)))
    ensures Number(PadStart8(Decimal(n))) == n
  {
    HundredMillion();
    DecimalLength(n, 8);
    NumberOfDecimal(n);
    if |Decimal(n)| < 8 {
      NumberOfPadded(8 - |Decimal(n)|, Decimal(n));
    }
  }

  ghost predicate InOrder(members: seq<(string, string)>) {
    forall i, j | 0 <= i < j < |members| :: Less(members[i].0, members[j].0)
  }

  lemma PathsInOrder(i: nat, j: nat)
    requires i < j < 100_000_000
    ensures Less(MemberPath(i), MemberPath(j))
  {
    PaddedIndex(i);
    PaddedIndex(j);
    LessIsNumeric(PadStart8(Decimal(i)), PadStart8(Decimal(j)));
    LessAfterPrefix("attachments/", PadStart8(Decimal(i)), PadStart8(Decimal(j)));
  }

  /** The first index with nine digits sorts before the last one with eight. */
  lemma NineDigitsComeFirst()
    ensures !Less(MemberPath(99_999_999), MemberPath(100_000_000))
  {
    HundredMillion();
    var a, b := Decimal(99_999_999), Decimal(100_000_000);
    DecimalLength(99_999_999, 7);
    DecimalLength(99_999_999, 8);
    DecimalLength(100_000_000, 8);
    assert Power10(7) == 10_000_000;
    LeadingDigit(99_999_999, 7);
    LeadingDigit(100_000_000, 8);
    assert Power10(8) == 100_000_000;
    LessAfterPrefix("attachments/", a, b);
  }

  lemma {:induction false} LeadingDigit(n: nat, k: nat)
    requires Power10(k) <= n < 10 * Power10(k)
    ensures DigitValue(Decimal(n)[0]) == n / Power10(k)
    decreases k
  {
    if n >= 10 {
      assert k > 0;
      LeadingDigit(n / 10, k - 1);
      DivideTwice(n, Power10(k - 1));
    } else {
      assert k == 0;
    }
  }

  lemma DivideTwice(n: nat, p: nat)
    requires p > 0
    ensures (n / 10) / p == n / (10 * p)
  {
    var q := n / 10 / p;
    assert q * p <= n / 10 < q * p + p;
    assert q * (10 * p) == 10 * (q * p);
    assert q * (10 * p) <= n < q * (10 * p) + 10 * p;
    Quotient(n, 10 * p, q);
  }

  lemma Quotient(n: nat, d: nat, q: nat)
    requires d > 0 && q * d <= n < q * d + d
    ensures n / d == q
  {
    var r := n / d;
    assert r * d <= n < r * d + d;
    assert (r - q) * d < d && (q - r) * d < d;
    BelowOne(r - q, d);
    BelowOne(q - r, d);
  }

  lemma BelowOne(x: int, d: nat)
    requires x * d < d
    ensures x < 1
  {
  }

  /** The members are in order exactly up to a hundred million attachments; the patch comes last. */
  lemma MembersInOrder(handles: seq<string>, patchHandle: string)
    ensures InOrder(Members(handles, patchHandle)) <==> |handles| <= 100_000_000
    ensures forall i | 0 <= i < |handles| :: Less(Members(handles, patchHandle)[i].0, "patch")
    ensures Members(handles, patchHandle)[|handles|] == ("patch", patchHandle)
  {
    hide MemberPath, Less;
    var members := Members(handles, patchHandle);
    forall i: nat
      ensures Less(MemberPath(i), "patch")
    {
      AttachmentsBeforePatch(i);
    }
    if |handles| <= 100_000_000 {
      forall i, j | 0 <= i < j < |members|
        ensures Less(members[i].0, members[j].0)
      {
        if j < |handles| {
          PathsInOrder(i, j);
        }
      }
    } else {
      NineDigitsComeFirst();
      assert members[99_999_999].0 == MemberPath(99_999_999) && members[100_000_000].0 == MemberPath(100_000_000);
    }
  }

  lemma AttachmentsBeforePatch(i: nat)
    ensures Less(MemberPath(i), "patch")
  {
    assert MemberPath(i)[0] == "attachments/"[0] == 'a';
  }
}

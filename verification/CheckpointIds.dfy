/** Checkpoint ids as text (dream/core/checkpoints.py: _ids, _next_id, _path_for): decimal counters padded to four
    digits, sorted by length and then as text. */
module CheckpointIds {
  const DIGITS: string := "0123456789"

  predicate IsDigit(c: char) { '0' <= c <= '9' }

  function DigitValue(c: char): nat
    requires IsDigit(c)
  {
    c as int - '0' as int
  }

  predicate IsNumeral(s: string) { forall i :: 0 <= i < |s| ==> IsDigit(s[i]) }

  // int(s)
  function Value(s: string): nat
    requires IsNumeral(s)
  {
    if |s| == 0 then 0 else 10 * Value(s[..|s| - 1]) + DigitValue(s[|s| - 1])
  }

  // f"{n:0{width}d}"
  function Format(n: nat, width: nat): (s: string)
    ensures IsNumeral(s) && |s| >= width
    decreases n, width
  {
    if n == 0 then seq(width, _ => '0')
    else
      var head := Format(n / 10, if width > 0 then width - 1 else 0);
      head + [DIGITS[n % 10]]
  }

  function Id(n: nat): string { Format(n, 4) }

  // Python's order on strings
  ghost predicate TextLess(a: string, b: string) {
    exists k: nat :: DiffersFirstAt(a, b, k)
  }

  ghost predicate DiffersFirstAt(a: string, b: string, k: nat) {
    && k <= |a| && k < |b| && a[..k] == b[..k]
    && (k < |a| ==> a[k] < b[k])
  }

  // The sort key (len(s), s)
  ghost predicate IdLess(a: string, b: string) {
    |a| < |b| || (|a| == |b| && TextLess(a, b))
  }

  function Pow10(n: nat): (p: nat)
    ensures p > 0
  {
    if n == 0 then 1 else 10 * Pow10(n - 1)
  }

  lemma {:induction false} ValueBound(s: string)
    requires IsNumeral(s)
    ensures Value(s) < Pow10(|s|)
  {
    if |s| > 0 {
      ValueBound(s[..|s| - 1]);
    }
  }

  lemma {:induction false} Pow10Monotone(a: nat, b: nat)
    requires a <= b
    ensures Pow10(a) <= Pow10(b)
    decreases b
  {
    if a < b {
      Pow10Monotone(a, b - 1);
    }
  }

  lemma {:induction false} ZerosValue(width: nat)
    ensures Value(seq(width, _ => '0')) == 0
  {
    if width > 0 {
      assert seq(width, _ => '0')[..width - 1] == seq(width - 1, _ => '0');
      ZerosValue(width - 1);
    }
  }

  lemma ValueAppend(head: string, c: char)
    requires IsNumeral(head) && IsDigit(c)
    ensures Value(head + [c]) == 10 * Value(head) + DigitValue(c)
  {
    assert (head + [c])[..|head|] == head;
  }

  // Formatting loses nothing.
  lemma {:induction false} ValueOfFormat(n: nat, width: nat)
    ensures Value(Format(n, width)) == n
    decreases n, width
  {
    if n == 0 {
      ZerosValue(width);
    } else {
      var head := Format(n / 10, if width > 0 then width - 1 else 0);
      ValueOfFormat(n / 10, if width > 0 then width - 1 else 0);
      ValueAppend(head, DIGITS[n % 10]);
    }
  }

  // No longer than it need be: past the width the first digit counts.
  lemma {:induction false} FormatIsTight(n: nat, width: nat)
    ensures |Format(n, width)| > width ==> n >= Pow10(|Format(n, width)| - 1)
    decreases n, width
  {
    if n > 0 {
      var w := if width > 0 then width - 1 else 0;
      FormatIsTight(n / 10, w);
      var inner := Format(n / 10, w);
      if |inner| + 1 > width && |inner| > 0 {
        if |inner| > w {
          assert n / 10 >= Pow10(|inner| - 1);
        }
      }
    }
  }

  lemma {:induction false} LeadStays(a: string, b: string, k: nat, j: nat)
    requires IsNumeral(a) && IsNumeral(b) && |a| == |b| && k <= j <= |a|
    requires Value(a[..k]) < Value(b[..k])
    ensures Value(a[..j]) < Value(b[..j])
    decreases j
  {
    if k < j {
      LeadStays(a, b, k, j - 1);
      assert a[..j][..j - 1] == a[..j - 1] && b[..j][..j - 1] == b[..j - 1];
    }
  }

  lemma TextLessIsSmaller(a: string, b: string)
    requires IsNumeral(a) && IsNumeral(b) && |a| == |b| && TextLess(a, b)
    ensures Value(a) < Value(b)
  {
    var k: nat :| DiffersFirstAt(a, b, k);
    assert a[..k + 1][..k] == a[..k] && b[..k + 1][..k] == b[..k];
    LeadStays(a, b, k + 1, |a|);
    assert a[..|a|] == a && b[..|b|] == b;
  }

  lemma {:induction false} FirstDifference(a: string, b: string) returns (k: nat)
    requires |a| == |b| && a != b
    ensures DiffersFirstAt(a, b, k) || DiffersFirstAt(b, a, k)
  {
    k := 0;
    while a[k] == b[k]
      invariant k < |a| && a[..k] == b[..k] && a != b
      decreases |a| - k
    {
      assert a[..k + 1] == a[..k] + [a[k]] && b[..k + 1] == b[..k] + [b[k]];
      assert a[..|a|] == a && b[..|b|] == b;
      k := k + 1;
    }
  }

  lemma SameLengthOrder(a: string, b: string)
    requires IsNumeral(a) && IsNumeral(b) && |a| == |b|
    ensures TextLess(a, b) <==> Value(a) < Value(b)
  {
    if TextLess(a, b) {
      TextLessIsSmaller(a, b);
    } else if a != b {
      var k := FirstDifference(a, b);
      TextLessIsSmaller(b, a);
    }
  }

  lemma LongerIsLarger(a: nat, b: nat)
    requires |Id(a)| < |Id(b)|
    ensures a < b
  {
    ValueOfFormat(a, 4);
    ValueBound(Id(a));
    FormatIsTight(b, 4);
    Pow10Monotone(|Id(a)|, |Id(b)| - 1);
  }

  // Sorting the ids as (length, text) sorts the checkpoints by number.
  lemma IdOrderIsNumeric(a: nat, b: nat)
    ensures IdLess(Id(a), Id(b)) <==> a < b
  {
    ValueOfFormat(a, 4);
    ValueOfFormat(b, 4);
    if |Id(a)| < |Id(b)| {
      LongerIsLarger(a, b);
    } else if |Id(b)| < |Id(a)| {
      LongerIsLarger(b, a);
    } else {
      SameLengthOrder(Id(a), Id(b));
    }
  }

  // "7" and "0007" name the same checkpoint, and no two numbers share a file.
  lemma IdIsCanonical(s: string, n: nat)
    requires IsNumeral(s)
    ensures Id(Value(s)) == Id(n) <==> Value(s) == n
    ensures Value(Id(Value(s))) == Value(s)
  {
    ValueOfFormat(Value(s), 4);
    ValueOfFormat(n, 4);
  }
}

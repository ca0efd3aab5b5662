/** `AbbreviatedByteArrayJsonConverter`: a byte array is written to JSON as
    text in which every printable ASCII byte stands for itself and every run
    of other bytes is shortened to at most two dots. The converter cannot
    read its own output back. */
module ByteAbbreviation {
  import opened Wrappers
  import opened Numeric

  /** The bytes written as themselves: space through `~`. */
  predicate Printable(b: byte) {
    32 <= b <= 126
  }

  /** The most dots one run of unprintable bytes turns into. */
  const MaxDots: nat := 2

  function Dots(n: nat): (s: string)
    ensures |s| == n
    ensures forall i :: 0 <= i < n ==> s[i] == '.'
  {
    if n == 0 then "" else "." + Dots(n - 1)
  }

  /** The length of the maximal run of unprintable bytes at the front. */
  function RunLength(bs: seq<byte>): (n: nat)
    ensures n <= |bs|
    ensures forall i :: 0 <= i < n ==> !Printable(bs[i])
    ensures n < |bs| ==> Printable(bs[n])
  {
    if |bs| == 0 || Printable(bs[0]) then 0 else 1 + RunLength(bs[1..])
  }

  /** The abbreviation stated run by run: a printable byte is its character,
      a maximal run of `n` other bytes is `min(n, 2)` dots. */
  function Abbreviate(bs: seq<byte>): (s: string)
    ensures |s| <= |bs|
    ensures |bs| == 0 ==> s == ""
    ensures forall i :: 0 <= i < |s| ==> ' ' <= s[i] <= '~'
    decreases |bs|
  {
    if |bs| == 0 then ""
    else if Printable(bs[0]) then [bs[0] as char] + Abbreviate(bs[1..])
    else
      var n := RunLength(bs);
      Dots(Min(n, MaxDots)) + Abbreviate(bs[n..])
  }

  /** The converter's byte-at-a-time rule, with the count of dots written
      since the last printable byte. */
  function Scan(bs: seq<byte>, dotCount: nat): string {
    if |bs| == 0 then ""
    else if Printable(bs[0]) then [bs[0] as char] + Scan(bs[1..], 0)
    else if dotCount < MaxDots then "." + Scan(bs[1..], dotCount + 1)
    else Scan(bs[1..], dotCount)
  }

  /** `WriteJson`: the loop over the bytes, which produces the run-by-run
      abbreviation. */
  method WriteJson(bytes: seq<byte>) returns (s: string)
    ensures s == Abbreviate(bytes)
    ensures |s| <= |bytes|
  {
    s := "";
    var dotCount := 0;
    for i := 0 to |bytes|
      invariant dotCount <= MaxDots
      invariant s + Scan(bytes[i..], dotCount) == Scan(bytes, 0)
    {
      var b := bytes[i];
      assert bytes[i..][1..] == bytes[i + 1..];
      if Printable(b) {
        dotCount := 0;
        s := s + [b as char];
      } else if dotCount < MaxDots {
        s := s + ".";
        dotCount := dotCount + 1;
      }
    }
    assert bytes[|bytes|..] == [];
    ScanIsAbbreviate(bytes);
  }

  /** A run of `n` unprintable bytes entered with `d` dots already written
      adds dots only up to the limit of two. */
  lemma {:induction false} ScanRun(run: seq<byte>, rest: seq<byte>, d: nat)
    requires forall i :: 0 <= i < |run| ==> !Printable(run[i])
    requires d <= MaxDots
    ensures Scan(run + rest, d) == Dots(Min(|run|, MaxDots - d)) + Scan(rest, Min(d + |run|, MaxDots))
    decreases |run|
  {
    if |run| == 0 {
      assert run + rest == rest;
    } else {
      assert (run + rest)[1..] == run[1..] + rest;
      assert !Printable((run + rest)[0]);
      if d < MaxDots {
        ScanRun(run[1..], rest, d + 1);
      } else {
        ScanRun(run[1..], rest, d);
      }
    }
  }

  /** The dot count does not matter once a printable byte (or the end)
      comes next. */
  lemma ScanAfterRun(rest: seq<byte>, d: nat)
    requires |rest| > 0 ==> Printable(rest[0])
    ensures Scan(rest, d) == Scan(rest, 0)
  {
  }

  /** The converter's loop and the run-by-run statement agree on every
      input. */
  lemma {:induction false} ScanIsAbbreviate(bs: seq<byte>)
    ensures Scan(bs, 0) == Abbreviate(bs)
    decreases |bs|
  {
    if |bs| == 0 {
    } else if Printable(bs[0]) {
      ScanIsAbbreviate(bs[1..]);
    } else {
      var n := RunLength(bs);
      assert bs == bs[..n] + bs[n..];
      ScanRun(bs[..n], bs[n..], 0);
      ScanAfterRun(bs[n..], Min(n, MaxDots));
      ScanIsAbbreviate(bs[n..]);
    }
  }

  /** Text made only of printable bytes is written unchanged. */
  lemma {:induction false} PrintableUnchanged(bs: seq<byte>)
    requires forall i :: 0 <= i < |bs| ==> Printable(bs[i])
    ensures |Abbreviate(bs)| == |bs|
    ensures forall i :: 0 <= i < |bs| ==> Abbreviate(bs)[i] == bs[i] as char
    decreases |bs|
  {
    if |bs| > 0 {
      PrintableUnchanged(bs[1..]);
    }
  }

  /** What one byte adds to the output, and the dot count after it. */
  function Emit(x: byte, dotCount: nat): string {
    if Printable(x) then [x as char] else if dotCount < MaxDots then "." else ""
  }

  function NextCount(x: byte, dotCount: nat): nat {
    if Printable(x) then 0 else if dotCount < MaxDots then dotCount + 1 else dotCount
  }

  lemma ScanCons(x: byte, s: seq<byte>, d: nat)
    ensures Scan([x] + s, d) == Emit(x, d) + Scan(s, NextCount(x, d))
  {
    assert ([x] + s)[0] == x;
    assert ([x] + s)[1..] == s;
  }

  /** The abbreviation is compositional at a printable byte: what comes
      after it is abbreviated as if on its own. */
  lemma {:induction false} ScanSplit(a: seq<byte>, p: byte, b: seq<byte>, d: nat)
    requires Printable(p)
    ensures Scan(a + [p] + b, d) == Scan(a + [p], d) + Scan(b, 0)
    decreases |a|
  {
    if |a| == 0 {
      assert a + [p] + b == [p] + b;
      assert a + [p] == [p] + [];
      ScanCons(p, b, d);
      ScanCons(p, [], d);
    } else {
      var x, r := a[0], a[1..];
      assert a + [p] + b == [x] + (r + [p] + b);
      assert a + [p] == [x] + (r + [p]);
      ScanCons(x, r + [p] + b, d);
      ScanCons(x, r + [p], d);
      ScanSplit(r, p, b, NextCount(x, d));
    }
  }

  lemma AbbreviateSplit(a: seq<byte>, b: seq<byte>)
    requires |a| > 0 && Printable(a[|a| - 1])
    ensures Abbreviate(a + b) == Abbreviate(a) + Abbreviate(b)
  {
    var front := a[..|a| - 1];
    assert a == front + [a[|a| - 1]];
    ScanSplit(front, a[|a| - 1], b, 0);
    ScanIsAbbreviate(a + b);
    ScanIsAbbreviate(a);
    ScanIsAbbreviate(b);
  }

  /** `CanRead` is false. */
  const CanRead: bool := false

  /** `ReadJson` throws whatever it is given. */
  function ReadJson(json: string): (r: Result<seq<byte>>)
    ensures r.Err? && r.error == NotSupported
  {
    Err(NotSupported)
  }
}

/** The process id written to a cgroup's control file, printed without allocating. */
module CgroupPid {
  import opened Bytes
  import opened Decimal

  const NEWLINE: byte := 10

  /** `pid as u32` for the platform's 32-bit signed process id. */
  function AsU32(pid: int): nat
    requires -0x8000_0000 <= pid < 0x8000_0000
  {
    if pid < 0 then pid + 0x1_0000_0000 else pid
  }

  /** Fills a 32-byte buffer from its end and returns where the text starts. */
  method CgroupPidBytes(pid: int) returns (buffer: array<byte>, cursor: nat)
    requires -0x8000_0000 <= pid < 0x8000_0000
    ensures fresh(buffer) && buffer.Length == 32
    ensures 21 <= cursor <= 30
    ensures IsAscii(Digits(AsU32(pid)))
    ensures buffer[cursor..] == Ascii(Digits(AsU32(pid))) + [NEWLINE]
  {
    buffer := new byte[32](_ => 0);
    var last := buffer.Length - 1;
    cursor := last;
    buffer[last] := NEWLINE;
    var value := AsU32(pid);
    ghost var digits := Digits(value);
    TenDigitsSuffice(value);
    // The number of digits still to be written; the others are in place.
    ghost var left := |digits|;
    while true
      invariant 1 <= left <= |digits| <= 10 && cursor == last - (|digits| - left)
      invariant Digits(value) == digits[..left]
      invariant buffer[last] == NEWLINE
      invariant forall i :: cursor <= i < last ==> buffer[i] == digits[left + i - cursor] as int
      decreases left
    {
      NextDigit(digits, left, value);
      cursor := cursor - 1;
      buffer[cursor] := '0' as int + value % 10;
      left := left - 1;
      value := value / 10;
      if value == 0 {
        break;
      }
    }
    IsPidText(buffer[cursor..], digits);
  }

  lemma IsPidText(bytes: seq<byte>, digits: string)
    requires IsAscii(digits) && |bytes| == |digits| + 1 && bytes[|digits|] == NEWLINE
    requires forall i :: 0 <= i < |digits| ==> bytes[i] == digits[i] as int
    ensures bytes == Ascii(digits) + [NEWLINE]
  {
  }

  lemma NextDigit(digits: string, left: nat, value: nat)
    requires 1 <= left <= |digits| && Digits(value) == digits[..left]
    ensures digits[left - 1] as int == '0' as int + value % 10
    ensures value / 10 == 0 <==> left == 1
    ensures value / 10 != 0 ==> Digits(value / 10) == digits[..left - 1]
  {
    assert digits[left - 1] == digits[..left][left - 1];
    assert digits[..left - 1] == digits[..left][..left - 1];
    DigitsAreDecimal(value);
    DigitsAreDecimal(value / 10);
  }

  lemma TenDigitsSuffice(value: nat)
    requires value < 0x1_0000_0000
    ensures 1 <= |Digits(value)| <= 10 && IsAscii(Digits(value))
  {
    assert Pow10(10) == 10_000_000_000 by {
      assert Pow10(5) == 100_000;
    }
    DigitCount(value, 10);
    DigitsAreDecimal(value);
  }

  /** The cast keeps the id modulo 2^32, and a non-negative id as it is. */
  lemma AsU32IsTheCast(pid: int)
    requires -0x8000_0000 <= pid < 0x8000_0000
    ensures 0 <= AsU32(pid) < 0x1_0000_0000 && AsU32(pid) % 0x1_0000_0000 == pid % 0x1_0000_0000
    ensures pid >= 0 ==> AsU32(pid) == pid
  {
    assert pid < 0 ==> pid % 0x1_0000_0000 == pid + 0x1_0000_0000;
  }

  /** The text is the one canonical decimal of the id: reading it gives the id back. */
  lemma PidReadsBack(pid: int)
    requires -0x8000_0000 <= pid < 0x8000_0000
    ensures var s := Digits(AsU32(pid));
            && AllDigits(s) && Value(s) == AsU32(pid) && 1 <= |s| <= 10
            && (s[0] == '0' ==> s == "0")
            && (forall t :: AllDigits(t) && t != [] && (t[0] == '0' ==> |t| == 1) && Value(t) == AsU32(pid) ==> t == s)
  {
    var n := AsU32(pid);
    DigitsAreDecimal(n);
    TenDigitsSuffice(n);
    forall t | AllDigits(t) && t != [] && (t[0] == '0' ==> |t| == 1) && Value(t) == n ensures t == Digits(n) {
      CanonicalIsDigits(t);
    }
  }

  lemma {:induction false} CanonicalIsDigits(t: string)
    requires AllDigits(t) && t != [] && (t[0] == '0' ==> |t| == 1)
    ensures t == Digits(Value(t))
    ensures |t| > 1 ==> Value(t) >= 10
  {
    var init, last := t[..|t| - 1], t[|t| - 1];
    if |t| > 1 {
      CanonicalIsDigits(init);
      if |init| == 1 {
        assert Value(init[..0]) == 0;
      }
      assert Value(t) == Value(init) * 10 + (last as int - '0' as int);
      assert Value(t) / 10 == Value(init);
      assert t == init + [last];
    } else {
      assert t == [last] && init == [];
    }
  }
}

/** base/LogStream.cc and base/LogStream.h: integers formatted in place into a fixed buffer. */
module LogStream {
  import opened CMath
  import opened DecimalText

  const MIRRORED_DIGITS := "9876543210123456789"
  const ZERO := 9
  const MAX_NUMERIC_SIZE := 32

  function Abs(x: int): nat {
    if x < 0 then -x else x
  }

  function Reversed(s: string): (r: string)
    ensures |r| == |s|
  {
    if s == "" then "" else Reversed(s[1..]) + [s[0]]
  }

  lemma {:induction false} ReversedAppend(s: string, c: char)
    ensures Reversed(s + [c]) == [c] + Reversed(s)
  {
    if s == "" {
    } else {
      assert (s + [c])[1..] == s[1..] + [c];
      ReversedAppend(s[1..], c);
    }
  }

  lemma {:induction false} ReversedAt(s: string, k: nat)
    requires k < |s|
    ensures Reversed(s)[k] == s[|s| - 1 - k]
  {
    if k < |s| - 1 { ReversedAt(s[1..], k); }
  }

  // The table yields the digit of a remainder of either sign.
  lemma MirroredDigit(lsd: int)
    requires -10 < lsd < 10
    ensures MIRRORED_DIGITS[ZERO + lsd] == DigitOf(Abs(lsd))
  {
  }

  lemma TruncatedAbs(i: int)
    ensures Abs(Quot(i, 10)) == Abs(i) / 10 && Abs(Rem(i, 10)) == Abs(i) % 10
  {
  }

  // std::reverse
  method Reverse(buf: array<char>, lo: nat, hi: nat)
    requires lo <= hi <= buf.Length
    modifies buf
    ensures buf[lo..hi] == Reversed(old(buf[lo..hi]))
    ensures buf[..lo] == old(buf[..lo]) && buf[hi..] == old(buf[hi..])
  {
    ghost var was := buf[lo..hi];
    forall i | lo <= i < hi {
      buf[i] := buf[lo + hi - 1 - i];
    }
    forall k | 0 <= k < hi - lo ensures buf[lo..hi][k] == Reversed(was)[k] {
      ReversedAt(was, k);
    }
  }

  // What is still to be written in front of the digits written so far, last digit first.
  predicate Progress(value: int, i: int, written: string) {
    Digits(Abs(value)) == (if i != 0 || written == "" then Digits(Abs(i)) else "") + Reversed(written)
  }

  lemma ProgressStep(value: int, i: int, written: string)
    requires Progress(value, i, written) && (i != 0 || written == "")
    ensures Progress(value, Quot(i, 10), written + [MIRRORED_DIGITS[ZERO + Rem(i, 10)]])
  {
    var c := MIRRORED_DIGITS[ZERO + Rem(i, 10)];
    MirroredDigit(Rem(i, 10));
    TruncatedAbs(i);
    ReversedAppend(written, c);
    var j := Quot(i, 10);
    assert Digits(Abs(i)) == (if j != 0 then Digits(Abs(j)) else "") + [c];
  }

  lemma ProgressEnds(value: int, written: string)
    requires Progress(value, 0, written) && written != ""
    ensures Digits(Abs(value)) == Reversed(written)
  {
  }

  // *p = c
  method WriteChar(buf: array<char>, at: nat, p: nat, c: char)
    requires at <= p < buf.Length
    modifies buf
    ensures buf[at..p + 1] == old(buf[at..p]) + [c]
    ensures buf[..at] == old(buf[..at]) && buf[p + 1..] == old(buf[p + 1..])
  {
    buf[p] := c;
  }

  // The do-while loop: the digits of value, last digit first.
  method WriteDigits(buf: array<char>, at: nat, value: int) returns (p: nat)
    requires at + |Decimal(value)| < buf.Length
    modifies buf
    ensures at <= p <= at + |Digits(Abs(value))| && Digits(Abs(value)) == Reversed(buf[at..p])
    ensures buf[..at] == old(buf[..at]) && buf[p..] == old(buf[p..])
  {
    hide Digits, Reversed, Progress, Quot, Rem;
    ghost var before := buf[..];
    var i := value;
    p := at;
    NoProgress(value);
    assert buf[at..p] == "";
    while p == at || i != 0
      invariant at <= p <= at + |Digits(Abs(value))|
      invariant Progress(value, i, buf[at..p])
      invariant buf[..at] == before[..at] && buf[p..] == before[p..]
      decreases p == at, Abs(i)
    {
      ProgressRoom(value, i, buf[at..p]);
      ProgressStep(value, i, buf[at..p]);
      TruncatedAbs(i);
      assert buf[p + 1..] == buf[p..][1..] && before[p + 1..] == before[p..][1..];
      var lsd := Rem(i, 10);
      i := Quot(i, 10);
      WriteChar(buf, at, p, MIRRORED_DIGITS[ZERO + lsd]);
      p := p + 1;
    }
    ProgressEnds(value, buf[at..p]);
  }

  // The digits and the sign, last character first.
  method WriteSigned(buf: array<char>, at: nat, value: int) returns (p: nat)
    requires at + |Decimal(value)| < buf.Length
    modifies buf
    ensures p == at + |Decimal(value)| && Reversed(buf[at..p]) == Decimal(value)
    ensures buf[..at] == old(buf[..at]) && buf[p..] == old(buf[p..])
  {
    hide Digits, Reversed;
    p := WriteDigits(buf, at, value);
    ghost var digits := buf[at..p];
    if value < 0 {
      buf[p] := '-';
      p := p + 1;
      ReversedAppend(digits, '-');
      assert buf[at..p] == digits + ['-'];
    }
  }

  // The text of value and a NUL at buf[at..]; there must be room for both.
  method Convert(buf: array<char>, at: nat, value: int) returns (len: nat)
    requires at + |Decimal(value)| < buf.Length
    modifies buf
    ensures len == |Decimal(value)|
    ensures buf[at..at + len] == Decimal(value) && buf[at + len] == '\0'
    ensures buf[..at] == old(buf[..at]) && buf[at + len + 1..] == old(buf[at + len + 1..])
  {
    hide Decimal, Reversed;
    var p := WriteSigned(buf, at, value);
    ghost var text := buf[at..p];
    buf[p] := '\0';
    assert buf[at..p] == text;
    Reverse(buf, at, p);
    len := p - at;
    assert buf[p..][0] == '\0' && buf[p..][1..] == old(buf[p + 1..]);
  }

  lemma NoProgress(value: int)
    ensures Progress(value, value, "")
  {
  }

  lemma ProgressRoom(value: int, i: int, written: string)
    requires Progress(value, i, written) && (i != 0 || written == "")
    ensures |written| < |Digits(Abs(value))| <= |Decimal(value)|
  {
  }

  class FixedBuffer {
    const data: array<char>
    var cur: nat

    ghost predicate Valid()
      reads this
    {
      cur <= data.Length
    }

    function Contents(): string
      requires Valid()
      reads this, data
    {
      data[..cur]
    }

    function Avail(): nat
      requires Valid()
      reads this
    {
      data.Length - cur
    }

    constructor (size: nat)
      ensures Valid() && fresh(data) && Contents() == "" && Avail() == size
    {
      data := new char[size];
      cur := 0;
    }

    method Append(text: string)
      requires Valid()
      modifies this, data
      ensures Valid() && Contents() == old(Contents()) + (if old(Avail()) > |text| then text else "")
    {
      if Avail() > |text| {
        forall i | 0 <= i < |text| {
          data[cur + i] := text[i];
        }
        cur := cur + |text|;
      }
    }

    method Reset()
      modifies this
      ensures Valid() && Contents() == ""
    {
      cur := 0;
    }

    // LogStream::formatInteger for a 64-bit value: the whole text or nothing, never past the end of the buffer.
    method FormatInteger(v: int)
      requires Valid() && -0x8000_0000_0000_0000 <= v < 0x1_0000_0000_0000_0000
      modifies this, data
      ensures Valid()
      ensures Contents() == old(Contents()) + (if old(Avail()) >= MAX_NUMERIC_SIZE then Decimal(v) else "")
    {
      hide Decimal;
      if Avail() >= MAX_NUMERIC_SIZE {
        DecimalLength(v);
        ghost var before := data[..cur];
        var len := Convert(data, cur, v);
        assert data[..cur + len] == data[..cur] + data[cur..cur + len];
        assert data[..cur] == before;
        cur := cur + len;
      }
    }
  }
}

/** The DER writer and reader as they run: digit loops and a moving position, each proved equal to
    the definitions of module Der. */
module DerStreams {
  import opened Der
  import Spec = Der

  /** Appends the length: digits are produced low byte first and then appended in reverse. */
  method AppendLength(output: Bytes, size: nat) returns (r: Bytes)
    requires size < SIZE_LIMIT
    ensures r == output + EncodeLength(size)
  {
    hide Digits, Reversed, EncodeLength;
    EncodedLength(size);
    if size < 128 {
      return output + [size];
    }
    var length, digits: Bytes := size, [];
    ReversedStep([], 0);
    while length != 0
      invariant Digits(length) + Reversed(digits) == Digits(size)
    {
      DigitsStep(length);
      ReversedStep(digits, length % 256);
      digits, length := digits + [length % 256], length / 256;
    }
    DigitsStep(0);
    assert Reversed(digits) == Digits(size);
    r := output + [128 + |digits|];
    ghost var written := r;
    var count := |digits|;
    assert digits[..count] == digits;
    while count != 0
      invariant 0 <= count <= |digits|
      invariant r + Reversed(digits[..count]) == written + Digits(size)
    {
      count := count - 1;
      assert digits[..count + 1] == digits[..count] + [digits[count]];
      ReversedStep(digits[..count], digits[count]);
      r := r + [digits[count]];
    }
    assert digits[..0] == [];
    assert r == written + Digits(size);
  }

  lemma EncodedLength(size: nat)
    requires size < SIZE_LIMIT
    ensures |Digits(size)| <= 8
    ensures EncodeLength(size) == if size < 128 then [size] else [128 + |Digits(size)|] + Digits(size)
  {
    SizeDigits(size);
  }

  lemma DigitsStep(n: nat)
    ensures Digits(n) == if n == 0 then [] else Digits(n / 256) + [n % 256]
  {
  }

  lemma ReversedStep(s: Bytes, x: Byte)
    ensures Reversed(s + [x]) == [x] + Reversed(s) && Reversed([]) == []
  {
    assert (s + [x])[..|s|] == s;
  }

  function Reversed(s: Bytes): (r: Bytes)
    ensures |r| == |s|
  {
    if s == [] then [] else [s[|s| - 1]] + Reversed(s[..|s| - 1])
  }

  method WriteTlv(tag: Byte, content: Bytes) returns (r: Bytes)
    requires |content| < SIZE_LIMIT
    ensures r == Tlv(tag, content)
  {
    r := [tag];
    r := AppendLength(r, |content|);
    r := r + content;
  }

  method WriteInteger(value: Bytes) returns (r: Bytes)
    requires |IntegerContent(value)| < SIZE_LIMIT
    ensures r == Integer(value)
  {
    hide Tlv;
    var first := 0;
    while first + 1 < |value| && value[first] == 0
      invariant 0 <= first <= |value| && IntegerContent(value[first..]) == IntegerContent(value)
    {
      assert value[first..][1..] == value[first + 1..];
      first := first + 1;
    }
    var content := value[first..];
    ghost var stripped := content;
    assert first + 1 >= |value| || content[0] != 0;
    assert IntegerContent(stripped) == if stripped == [] then [0] else if stripped[0] >= 128 then [0] + stripped
      else stripped;
    if content == [] {
      content := content + [0];
    }
    if content[0] >= 128 {
      content := [0] + content;
    }
    assert content == IntegerContent(value);
    r := WriteTlv(0x02, content);
  }

  class DerReader {
    const data: Bytes
    var position: nat

    ghost predicate Valid()
      reads this
    {
      position <= |data| && |data| < SIZE_LIMIT
    }

    ghost function Rest(): (r: Bytes)
      requires Valid()
      reads this
    {
      data[position..]
    }

    constructor (data: Bytes)
      requires |data| < SIZE_LIMIT
      ensures Valid() && this.data == data && Rest() == data
    {
      this.data, position := data, 0;
    }

    method ReadLength() returns (ok: bool, length: nat)
      requires Valid()
      modifies this
      ensures Valid() && ok == Spec.ReadLength(old(Rest())).Length? && Rest() == Spec.ReadLength(old(Rest())).rest
      ensures ok ==> length == Spec.ReadLength(old(Rest())).value
    {
      ghost var s := Rest();
      if position >= |data| {
        return false, 0;
      }
      var first := data[position];
      position := position + 1;
      assert s[0] == first && Rest() == s[1..];
      if first < 128 {
        return true, first;
      }
      var count := first - 128;
      if count == 0 || count > 8 || count > |data| - position {
        return false, 0;
      }
      assert s[1] == data[position];
      if data[position] == 0 {
        return false, 0;
      }
      length := 0;
      ghost var start := position;
      for i := 0 to count
        invariant position == start + i && position <= |data|
        invariant length == Number(data[start..position])
      {
        NumberFits(data[start..position]);
        PowerGrows(i, 7);
        SevenBytes();
        if length > 0xff_ffff_ffff_ffff {
          assert false;
        }
        assert data[start..position + 1][..i] == data[start..position];
        length := 256 * length + data[position];
        position := position + 1;
      }
      assert data[start..position] == s[1..1 + count] && Rest() == s[1 + count..];
      ok := length >= 128;
    }

    method Read(tag: Byte) returns (ok: bool, content: Bytes)
      requires Valid()
      modifies this
      ensures Valid() && ok == ReadElement(old(Rest()), tag).Got? && Rest() == ReadElement(old(Rest()), tag).rest
      ensures ok ==> content == ReadElement(old(Rest()), tag).content
    {
      hide Spec.ReadLength;
      content := [];
      if position >= |data| || data[position] != tag {
        return false, content;
      }
      position := position + 1;
      assert Rest() == old(Rest())[1..];
      var found, length := ReadLength();
      if !found || length > |data| - position {
        return false, content;
      }
      content := data[position..position + length];
      assert content == Rest()[..length] && data[position + length..] == Rest()[length..];
      position := position + length;
      return true, content;
    }

    method ReadInteger() returns (ok: bool, value: Bytes)
      requires Valid()
      modifies this
      ensures Valid() && ok == Spec.ReadInteger(old(Rest())).Value?
      ensures ok ==> Spec.ReadInteger(old(Rest())) == Value(value, Rest())
    {
      hide ReadElement;
      var content;
      ok, content := Read(0x02);
      if !ok || content == [] || content[0] >= 128 || (|content| > 1 && content[0] == 0 && content[1] < 128) {
        return false, [];
      }
      var first := 0;
      while first + 1 < |content| && content[first] == 0
        invariant first < |content| && Stripped(content[first..]) == Stripped(content)
      {
        assert content[first..][1..] == content[first + 1..];
        first := first + 1;
      }
      value := content[first..];
    }
  }

  lemma SevenBytes()
    ensures Power(7) == 0x100_0000_0000_0000
  {
    assert Power(4) == 0x1_0000_0000;
    assert Power(7) == 256 * 256 * 256 * Power(4);
  }
}

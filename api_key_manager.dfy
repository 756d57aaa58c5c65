/** Key creation in src/components/ApiKeyManager.tsx: 32 random bytes become
    a lower-case hexadecimal key, stored with a description that defaults to
    "API Key". The random bytes and the outcome of the database insert are
    parameters. */
module ApiKeyManager {
  import opened Wrappers
  import Seqs

  /** An element of a `Uint8Array`. */
  type Byte = x: int | 0 <= x < 256

  /** Bytes drawn per key (`new Uint8Array(32)`). */
  const KeyBytes := 32

  const DefaultDescription := "API Key"

  const HexDigits := "0123456789abcdef"

  predicate IsHexChar(c: char)
  {
    ('0' <= c <= '9') || ('a' <= c <= 'f')
  }

  /** The digit `d` in base 16, lower case. */
  function HexDigit(d: nat): (c: char)
    requires d < 16
    ensures IsHexChar(c)
  {
    HexDigits[d]
  }

  /** The value of a hexadecimal digit, if `c` is one. */
  function HexValue(c: char): (r: Option<nat>)
    ensures r.Some? <==> IsHexChar(c)
    ensures r.Some? ==> r.value < 16 && HexDigit(r.value) == c
  {
    if '0' <= c <= '9' then Some(c as int - '0' as int)
    else if 'a' <= c <= 'f' then Some(c as int - 'a' as int + 10)
    else None
  }

  /** Reading a digit back gives its value. */
  lemma HexValueOfDigit(d: nat)
    requires d < 16
    ensures HexValue(HexDigit(d)) == Some(d)
  {
    assert HexDigit(d) == HexDigits[d];
  }

  /** `n.toString(16)`: the base-16 digits of `n`, without leading zeros. */
  function ToHex(n: nat): (r: string)
    ensures r != []
    ensures forall i :: 0 <= i < |r| ==> IsHexChar(r[i])
    decreases n
  {
    if n < 16 then [HexDigit(n)] else ToHex(n / 16) + [HexDigit(n % 16)]
  }

  /** `s.padStart(width, fill)`. */
  function PadStart(s: string, width: nat, fill: char): (r: string)
    ensures |r| == if |s| >= width then |s| else width
    ensures r[|r| - |s|..] == s
    ensures forall i :: 0 <= i < |r| - |s| ==> r[i] == fill
  {
    if |s| >= width then s else seq(width - |s|, _ => fill) + s
  }

  /** `b.toString(16).padStart(2, '0')`: exactly two digits, high nibble first. */
  function ByteHex(b: Byte): (r: string)
    ensures r == [HexDigit(b / 16), HexDigit(b % 16)]
  {
    var digits := ToHex(b);
    if b < 16 then
      assert digits == [HexDigit(b)];
      PadStart(digits, 2, '0')
    else
      assert ToHex(b / 16) == [HexDigit(b / 16)];
      PadStart(digits, 2, '0')
  }

  /** `Array.from(bytes).map(byteHex).join('')`. */
  function HexKey(bytes: seq<Byte>): (key: string)
    ensures |key| == 2 * |bytes|
    ensures forall i :: 0 <= i < |key| ==> IsHexChar(key[i])
  {
    HexKeyShape(bytes);
    Seqs.Flatten(Seqs.Map(ByteHex, bytes))
  }

  /** Unfolding the key by one byte: the two digits of the first byte come first. */
  lemma HexKeyCons(bytes: seq<Byte>)
    requires bytes != []
    ensures Seqs.Flatten(Seqs.Map(ByteHex, bytes))
            == ByteHex(bytes[0]) + Seqs.Flatten(Seqs.Map(ByteHex, bytes[1..]))
  {
    assert Seqs.Map(ByteHex, bytes)[1..] == Seqs.Map(ByteHex, bytes[1..]);
  }

  /** Two characters per byte, all of them hexadecimal digits. */
  lemma {:induction false} HexKeyShape(bytes: seq<Byte>)
    ensures var key := Seqs.Flatten(Seqs.Map(ByteHex, bytes));
            |key| == 2 * |bytes| && forall i :: 0 <= i < |key| ==> IsHexChar(key[i])
  {
    if bytes != [] {
      HexKeyShape(bytes[1..]);
      HexKeyCons(bytes);
    }
  }

  /** Two hexadecimal characters at a time back to bytes; `None` for anything that is
      not such a string. */
  function DecodeHex(s: string): (r: Option<seq<Byte>>)
    ensures r.Some? ==> 2 * |r.value| == |s|
  {
    if s == [] then Some([])
    else if |s| == 1 then None
    else match (HexValue(s[0]), HexValue(s[1]), DecodeHex(s[2..]))
      case (Some(hi), Some(lo), Some(rest)) => Some([16 * hi + lo] + rest)
      case _ => None
  }

  /** Decoding reads two digits as one byte, then the rest. */
  lemma DecodeHexCons(c0: char, c1: char, rest: string, hi: nat, lo: nat, bs: seq<Byte>)
    requires HexValue(c0) == Some(hi) && HexValue(c1) == Some(lo) && DecodeHex(rest) == Some(bs)
    ensures 16 * hi + lo < 256
    ensures DecodeHex([c0, c1] + rest) == Some([16 * hi + lo] + bs)
  {
    var s := [c0, c1] + rest;
    assert s[0] == c0 && s[1] == c1 && s[2..] == rest;
  }

  /** Decoding reads one byte back from its two digits. */
  lemma DecodeByteHex(b: Byte, rest: string, bs: seq<Byte>)
    requires DecodeHex(rest) == Some(bs)
    ensures DecodeHex(ByteHex(b) + rest) == Some([b] + bs)
  {
    var hi, lo := b / 16, b % 16;
    assert 16 * hi + lo == b;
    var digits := ByteHex(b);
    assert digits == [HexDigit(hi), HexDigit(lo)];
    HexValueOfDigit(hi);
    HexValueOfDigit(lo);
    DecodeHexCons(digits[0], digits[1], rest, hi, lo, bs);
    assert [digits[0], digits[1]] == digits;
  }

  /** Decoding the key recovers the bytes it was made from. */
  lemma {:induction false} DecodeHexKey(bytes: seq<Byte>)
    ensures DecodeHex(HexKey(bytes)) == Some(bytes)
  {
    if bytes != [] {
      var rest := bytes[1..];
      HexKeyCons(bytes);
      assert HexKey(bytes) == ByteHex(bytes[0]) + HexKey(rest);
      DecodeHexKey(rest);
      DecodeByteHex(bytes[0], HexKey(rest), rest);
      assert [bytes[0]] + rest == bytes;
    }
  }

  /** Different bytes give different keys. */
  lemma HexKeyInjective(a: seq<Byte>, b: seq<Byte>)
    requires HexKey(a) == HexKey(b)
    ensures a == b
  {
    DecodeHexKey(a);
    DecodeHexKey(b);
  }

  /** `description || 'API Key'`. */
  function StoredDescription(description: string): (r: string)
    ensures r != []
    ensures description != [] ==> r == description
    ensures description == [] ==> r == DefaultDescription
  {
    if description == [] then DefaultDescription else description
  }

  /** The row inserted into `api_keys`. */
  datatype KeyRow = KeyRow(key: string, description: string)

  class KeyManager {
    /** The text of the description field. */
    var description: string

    constructor ()
      ensures description == []
    {
      description := [];
    }

    /** `generateApiKey`: builds the row from the random bytes and the description
        field; the field is cleared only when the insert succeeds. */
    method GenerateApiKey(random: seq<Byte>, insert: KeyRow -> bool) returns (row: KeyRow, saved: bool)
      requires |random| == KeyBytes
      modifies this
      ensures row == KeyRow(HexKey(random), StoredDescription(old(description)))
      ensures |row.key| == 64
      ensures saved == insert(row)
      ensures description == if saved then [] else old(description)
    {
      var key := HexKey(random);
      row := KeyRow(key, StoredDescription(description));
      saved := insert(row);
      if saved {
        description := [];
      }
    }
  }
}

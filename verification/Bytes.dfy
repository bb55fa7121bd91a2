/** Octets, big-endian fields and the option type shared by every codec module. */
module Bytes {

  type byte = x: int | 0 <= x < 0x100
  type u16 = x: int | 0 <= x < 0x1_0000
  type u21 = x: int | 0 <= x < 0x20_0000
  type u32 = x: int | 0 <= x < 0x1_0000_0000

  datatype Option<+T> = None | Some(value: T)

  /** `struct.pack(">H", n)`; `Be16` undoes it. */
  function U16(n: u16): (s: seq<byte>)
    ensures |s| == 2 && Be16(s, 0) == n
  {
    [n / 256, n % 256]
  }

  function Be16(s: seq<byte>, at: nat): u16
    requires at + 2 <= |s|
  {
    s[at] as int * 256 + s[at + 1] as int
  }

  /** Most significant octet first. */
  lemma BigEndian(s: seq<byte>, at: nat)
    requires at + 2 <= |s|
    ensures Be16(s, at) / 256 == s[at] && Be16(s, at) % 256 == s[at + 1]
  {
  }

  lemma U16Inverse(s: seq<byte>, at: nat)
    requires at + 2 <= |s|
    ensures U16(Be16(s, at)) == s[at..at + 2]
  {
  }

  /** A field whose octets are known. */
  lemma Field(s: seq<byte>, at: nat, value: u16)
    requires at + 2 <= |s| && s[at..at + 2] == U16(value)
    ensures Be16(s, at) == value
  {
    assert s[at] == s[at..at + 2][0] && s[at + 1] == s[at..at + 2][1];
  }

  /** A slice of a slice. */
  lemma Within(data: seq<byte>, at: nat, part: seq<byte>, low: nat, high: nat)
    requires at + |part| <= |data| && data[at..at + |part|] == part && low <= high <= |part|
    ensures data[at + low..at + high] == part[low..high]
  {
    forall k | 0 <= k < high - low
      ensures data[at + low..at + high][k] == part[low..high][k]
    {
      assert data[at + low + k] == data[at..at + |part|][low + k];
    }
  }

  /** `n.to_bytes(3, "big")`. */
  function U24(n: nat): (s: seq<byte>)
    requires n < 0x100_0000
    ensures |s| == 3 && s[0] as int * 0x1_0000 + s[1] as int * 256 + s[2] as int == n
  {
    var low: u16 := n % 0x1_0000;
    [n / 0x1_0000, low / 256, low % 256]
  }

  /** Repeats one octet. */
  function Fill(n: nat, b: byte): (s: seq<byte>)
    ensures |s| == n && forall i :: 0 <= i < n ==> s[i] == b
  {
    seq(n, _ => b)
  }

  /** A product the verifier need not expand. */
  function Product(a: nat, b: nat): nat { a * b }
}

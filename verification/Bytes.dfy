/** Octets, unsigned integers in network byte order, and the result of a parse. */
module Bytes {

  type Octet = x: int | 0 <= x < 256
  type U16 = x: int | 0 <= x < 0x10000
  type U32 = x: int | 0 <= x < 0x1_0000_0000
  type U64 = x: int | 0 <= x < 0x1_0000_0000_0000_0000

  // Panic is a run-time error of the program, here a slice with its bounds the wrong way round.
  datatype Result<+T> = Ok(value: T) | Err | Panic

  function Prepend<T>(x: T, r: Result<seq<T>>): Result<seq<T>>
  {
    Appended([x], r)
  }

  function Appended<T>(front: seq<T>, r: Result<seq<T>>): Result<seq<T>>
  {
    match r
    case Ok(back) => Ok(front + back)
    case Err => Err
    case Panic => Panic
  }

  lemma SliceOfSlice<T>(b: seq<T>, c: nat, i: nat, j: nat)
    requires i <= j && c + j <= |b|
    ensures b[c..][i..j] == b[c + i..c + j] && b[c..][j..] == b[c + j..]
  {
  }

  lemma AppendedNothing<T>(r: Result<seq<T>>)
    ensures Appended([], r) == r
  {
    match r
    case Ok(back) => assert [] + back == back;
    case _ =>
  }

  // A loop that appends and a recursion that prepends agree.
  lemma AppendedPrepend<T>(front: seq<T>, x: T, r: Result<seq<T>>)
    ensures Appended(front, Prepend(x, r)) == Appended(front + [x], r)
  {
    match r
    case Ok(back) => assert front + ([x] + back) == (front + [x]) + back;
    case _ =>
  }

  lemma PrependAppended<T>(x: T, front: seq<T>, r: Result<seq<T>>)
    ensures Prepend(x, Appended(front, r)) == Appended([x] + front, r)
  {
    match r
    case Ok(back) => assert [x] + (front + back) == ([x] + front) + back;
    case _ =>
  }

  function U16Bytes(x: U16): (b: seq<Octet>)
    ensures |b| == 2
  {
    [x / 256, x % 256]
  }

  function U32Bytes(x: U32): (b: seq<Octet>)
    ensures |b| == 4
  {
    U16Bytes(x / 0x10000) + U16Bytes(x % 0x10000)
  }

  function U64Bytes(x: U64): (b: seq<Octet>)
    ensures |b| == 8
  {
    U32Bytes(x / 0x1_0000_0000) + U32Bytes(x % 0x1_0000_0000)
  }

  function GetU16(b: seq<Octet>, at: nat): (x: U16)
    requires at + 2 <= |b|
  {
    b[at] as int * 256 + b[at + 1]
  }

  function GetU32(b: seq<Octet>, at: nat): (x: U32)
    requires at + 4 <= |b|
  {
    GetU16(b, at) as int * 0x10000 + GetU16(b, at + 2)
  }

  lemma U16BytesOf(b: seq<Octet>, at: nat)
    requires at + 2 <= |b|
    ensures U16Bytes(GetU16(b, at)) == b[at..at + 2]
  {
  }

  lemma U32BytesOf(b: seq<Octet>, at: nat)
    requires at + 4 <= |b|
    ensures U32Bytes(GetU32(b, at)) == b[at..at + 4]
  {
  }

  function Zeros(n: nat): (z: seq<Octet>)
    ensures |z| == n
    ensures forall i | 0 <= i < n :: z[i] == 0
  {
    seq(n, _ => 0)
  }
}

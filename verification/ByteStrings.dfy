/** Byte strings, fixed-width integer encodings and concatenation. */
module ByteStrings {

  newtype byte = x: int | 0 <= x < 256

  type Bytes = seq<byte>

  const U32_LIMIT := 0x1_0000_0000

  datatype Option<+T> = None | Some(value: T)

  datatype Result<+T, +E> = Ok(value: T) | Err(error: E)

  /** The number of values `width` bytes can hold. */
  function Limit(width: nat): (n: nat)
    ensures n > 0
  {
    if width == 0 then 1 else 256 * Limit(width - 1)
  }

  /** `to_le_bytes`: `width` bytes, least significant first. */
  function Le(n: nat, width: nat): (b: Bytes)
    ensures |b| == width
  {
    if width == 0 then [] else [(n % 256) as byte] + Le(n / 256, width - 1)
  }

  /** `from_le_bytes`. */
  function FromLe(b: Bytes): (n: nat)
    ensures n < Limit(|b|)
  {
    if b == [] then 0 else b[0] as nat + 256 * FromLe(b[1..])
  }

  /** `to_be_bytes`: `width` bytes, most significant first. */
  function Be(n: nat, width: nat): (b: Bytes)
    ensures |b| == width
  {
    if width == 0 then [] else Be(n / 256, width - 1) + [(n % 256) as byte]
  }

  /** The cast `n as u32`. */
  function AsU32(n: nat): (r: nat)
    ensures r < U32_LIMIT && (n < U32_LIMIT ==> r == n)
  {
    n % U32_LIMIT
  }

  lemma U32Limit()
    ensures Limit(4) == U32_LIMIT
  {
  }

  lemma {:induction false} LeDecodes(n: nat, width: nat)
    requires n < Limit(width)
    ensures FromLe(Le(n, width)) == n
  {
    if width > 0 {
      LeDecodes(n / 256, width - 1);
      assert Le(n, width)[1..] == Le(n / 256, width - 1);
    }
  }

  lemma {:induction false} LeEncodes(b: Bytes)
    ensures Le(FromLe(b), |b|) == b
  {
    if b != [] {
      LeEncodes(b[1..]);
      var n := FromLe(b);
      assert n % 256 == b[0] as nat && n / 256 == FromLe(b[1..]);
    }
  }

  lemma {:induction false} BeInjective(m: nat, n: nat, width: nat)
    requires m < Limit(width) && n < Limit(width)
    requires Be(m, width) == Be(n, width)
    ensures m == n
  {
    if width > 0 {
      var bm, bn := Be(m, width), Be(n, width);
      assert bm[..width - 1] == Be(m / 256, width - 1) && bn[..width - 1] == Be(n / 256, width - 1);
      assert bm[width - 1] == bn[width - 1];
      BeInjective(m / 256, n / 256, width - 1);
    }
  }

  lemma SliceOfSlice(s: Bytes, from: nat, to: nat, i: nat, j: nat)
    requires from <= to <= |s| && i <= j <= to - from
    ensures s[from..to][i..j] == s[from + i..from + j]
  {
    var x, y := s[from..to][i..j], s[from + i..from + j];
    assert forall k :: 0 <= k < j - i ==> x[k] == s[from + i + k] && y[k] == s[from + i + k];
    assert x == y;
  }

  function Concat(parts: seq<Bytes>): (whole: Bytes)
  {
    if parts == [] then [] else parts[0] + Concat(parts[1..])
  }

  function TotalLength(parts: seq<Bytes>): (n: nat)
  {
    if parts == [] then 0 else |parts[0]| + TotalLength(parts[1..])
  }

  lemma {:induction false} ConcatLength(parts: seq<Bytes>)
    ensures |Concat(parts)| == TotalLength(parts)
  {
    if parts != [] {
      ConcatLength(parts[1..]);
    }
  }

  lemma {:induction false} ConcatAppend(parts: seq<Bytes>, last: Bytes)
    ensures Concat(parts + [last]) == Concat(parts) + last
    ensures TotalLength(parts + [last]) == TotalLength(parts) + |last|
  {
    if parts == [] {
      assert parts + [last] == [last];
      assert Concat([last]) == last + Concat([]);
    } else {
      ConcatAppend(parts[1..], last);
      assert (parts + [last])[1..] == parts[1..] + [last];
    }
  }

  /** The bytes taken from `whole` between two offsets, as `slice(start, end)` clamps them. */
  function Between(whole: Bytes, start: nat, end: nat): (part: Bytes)
    requires start <= end
  {
    if start >= |whole| then [] else if end >= |whole| then whole[start..] else whole[start..end]
  }
}

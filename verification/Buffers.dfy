/** Writing into a byte buffer in place. */
module Buffers {
  import opened Digits

  /** `b` with the bytes from `at` on replaced by `s`. */
  function Patched(b: seq<byte>, at: nat, s: seq<byte>): (r: seq<byte>)
    requires at + |s| <= |b|
    ensures |r| == |b|
  {
    b[..at] + s + b[at + |s|..]
  }

  lemma PatchedOn(b: seq<byte>, at: nat, s: seq<byte>, t: seq<byte>)
    requires at + |s| + |t| <= |b|
    ensures Patched(Patched(b, at, s), at + |s|, t) == Patched(b, at, s + t)
  {
  }

  lemma PatchedNext(b: seq<byte>, at: nat, s: seq<byte>, i: nat)
    requires i < |s| && at + |s| <= |b|
    ensures Patched(b, at, s[..i])[at + i := s[i]] == Patched(b, at, s[..i + 1])
  {
    assert s[..i + 1] == s[..i] + [s[i]];
  }

  /** `memcpy` into the buffer. */
  method Copy(buffer: array<byte>, at: nat, s: seq<byte>)
    requires at + |s| <= buffer.Length
    modifies buffer
    ensures buffer[..] == Patched(old(buffer[..]), at, s)
  {
    for i := 0 to |s|
      invariant buffer[..] == Patched(old(buffer[..]), at, s[..i])
    {
      PatchedNext(old(buffer[..]), at, s, i);
      buffer[at + i] := s[i];
    }
    assert s[..|s|] == s;
  }

  /** `std::to_chars` into `[at, end)`, by its result: no room, no write. */
  method ToChars(buffer: array<byte>, at: nat, end: nat, n: nat) returns (ok: bool, next: nat)
    requires at <= end <= buffer.Length
    modifies buffer
    ensures ok == (at + |Decimal(n)| <= end) && next <= end
    ensures ok ==> next == at + |Decimal(n)| && buffer[..] == Patched(old(buffer[..]), at, Decimal(n))
    ensures !ok ==> buffer[..] == old(buffer[..])
  {
    ok := at + |Decimal(n)| <= end;
    next := end;
    if ok {
      Copy(buffer, at, Decimal(n));
      next := at + |Decimal(n)|;
    }
  }
}

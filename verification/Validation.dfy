/** The validators, run over a buffer in memory: lo_validate_string, lo_validate_blob and
    lo_validate_arg answer what the format says. */
module Validation {
  import opened Octets
  import opened Arguments
  import opened Codec

  /** lo_validate_string: looks for the terminator, then checks the padding. */
  method ValidateString(a: array<byte>, at: nat, size: int) returns (len: int)
    requires at + size <= a.Length
    ensures len == if size < 0 then -ESIZE else CheckString(a[at..at + size])
  {
    if size < 0 {
      return -ESIZE;
    }
    ghost var s := a[at..at + size];
    len := 0;
    var i := 0;
    while i < size
      invariant 0 <= i <= size && len == 0
      invariant forall k :: 0 <= k < i ==> s[k] != 0
    {
      if a[at + i] == 0 {
        len := 4 * (i / 4 + 1);
        break;
      }
      i := i + 1;
    }
    if len == 0 {
      assert StrLen(s) == size;
      return -ETERM;
    }
    StrLenIs(s, i);
    ghost var n := i;
    if len > size {
      return -ESIZE;
    }
    assert len == PaddedSize(n);
    while i < len
      invariant n <= i <= len
      invariant forall k :: n <= k < i ==> s[k] == 0
    {
      if a[at + i] != 0 {
        NotAllZero(s, n, PaddedSize(n), i);
        return -EPAD;
      }
      i := i + 1;
    }
    assert AllZero(s[n..PaddedSize(n)]);
  }

  lemma NotAllZero(s: seq<byte>, from: nat, to: nat, i: nat)
    requires from <= i < to <= |s| && s[i] != 0
    ensures !AllZero(s[from..to])
  {
    assert s[from..to][i - from] == s[i];
  }

  /** lo_validate_blob: reads the size field, then checks the padding.  With fewer than four bytes
      the field is whatever lies behind the buffer, here any value at all. */
  method ValidateBlob(a: array<byte>, at: nat, size: int) returns (len: int)
    requires at + size <= a.Length
    ensures len == if size < 0 then -ESIZE else CheckBlob(a[at..at + size])
  {
    if size < 0 {
      return -ESIZE;
    }
    ghost var s := a[at..at + size];
    var dsize: nat :| dsize < TWO32;
    if size >= 4 {
      dsize := NetValue(a[at..at + 4]);
      assert a[at..at + 4] == s[..4];
    }
    if dsize > MAX_MSG_SIZE {
      return -ESIZE;
    }
    var end: nat := 4 + dsize;
    len := 4 * (end / 4 + 1);
    assert len == PaddedSize(end);
    if len > size {
      return -ESIZE;
    }
    var i := end;
    while i < len
      invariant end <= i <= len
      invariant forall k :: end <= k < i ==> s[k] == 0
    {
      if a[at + i] != 0 {
        NotAllZero(s, end, PaddedSize(end), i);
        return -EPAD;
      }
      i := i + 1;
    }
    assert AllZero(s[end..PaddedSize(end)]);
  }

  /** lo_validate_arg */
  method ValidateArg(tag: byte, a: array<byte>, at: nat, size: nat) returns (len: int)
    requires at + size <= a.Length
    ensures len == CheckArg(tag, a[at..at + size])
  {
    if IsFlag(tag) {
      return 0;
    } else if IsWord(tag) {
      return if size >= 4 then 4 else -ESIZE;
    } else if IsLong(tag) {
      return if size >= 8 then 8 else -ESIZE;
    } else if IsText(tag) {
      len := ValidateString(a, at, size);
    } else if tag == BLOB {
      len := ValidateBlob(a, at, size);
    } else {
      return -EINVALIDTYPE;
    }
  }
}

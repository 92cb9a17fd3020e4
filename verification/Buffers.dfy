// The string buffer of buffer.c: used counts the terminating zero; used == 0 is the
// empty buffer.

module Buffers {
  // buffer_align_size
  function AlignSize(size: nat): nat {
    size + (64 - size % 64)
  }

  class Buffer {
    var ptr: array<char>
    var used: nat

    ghost predicate Valid()
      reads this, ptr
    {
      used <= ptr.Length && (used > 0 ==> ptr[used - 1] == '\0')
    }

    // The string without its terminating zero.
    function Contents(): string
      requires used <= ptr.Length
      reads this, ptr
    {
      if used == 0 then "" else ptr[..used - 1]
    }

    constructor (s: string)
      ensures Valid() && Contents() == s && fresh(ptr)
    {
      var p := new char[|s| + 1](i requires 0 <= i <= |s| => if i == |s| then '\0' else s[i]);
      ptr, used := p, |s| + 1;
    }

    // buffer_realloc: at least size elements, the old ones kept.
    method Realloc(size: nat)
      modifies this`ptr
      ensures ptr.Length >= size && ptr.Length >= old(ptr.Length) && (ptr == old(ptr) || fresh(ptr))
      ensures ptr[..old(ptr.Length)] == old(ptr[..])
    {
      var need := if size == 0 then 1 else size;
      if need > ptr.Length {
        var p := new char[AlignSize(need)];
        forall k | 0 <= k < ptr.Length {
          p[k] := ptr[k];
        }
        ptr := p;
      }
    }

    // buffer_string_prepare_copy: an empty string with room for size characters.
    method PrepareCopy(size: nat)
      requires Valid()
      modifies this, ptr
      ensures Valid() && used == 1 && Contents() == "" && ptr.Length >= size + 1 && (ptr == old(ptr) || fresh(ptr))
    {
      if size + 1 > ptr.Length {
        ptr := new char[AlignSize(size + 1)];
      }
      used := 1;
      ptr[0] := '\0';
    }

    // buffer_string_prepare_append: room for size more characters.
    method PrepareAppend(size: nat)
      requires Valid()
      modifies this, ptr
      ensures Valid() && Contents() == old(Contents()) && used == |Contents()| + 1
      ensures ptr.Length >= used + size && (ptr == old(ptr) || fresh(ptr))
    {
      if used <= 1 {
        PrepareCopy(size);
      } else {
        ghost var before := ptr[..];
        Realloc(used + size);
        assert ptr[..used] == before[..used];
      }
    }

    // buffer_commit: size characters after the string now belong to it.
    method Commit(size: nat)
      requires ptr.Length > 0 && (if used == 0 then 1 else used) + size <= ptr.Length
      modifies this`used, ptr
      ensures Valid() && used == (if old(used) == 0 then 1 else old(used)) + size
      ensures Contents() == old(ptr[..(if used == 0 then 0 else used - 1) + size])
    {
      ghost var before := ptr[..];
      if used == 0 {
        used := 1;
      }
      used := used + size;
      ptr[used - 1] := '\0';
      assert ptr[..used - 1] == before[..used - 1];
    }

    // buffer_string_set_length
    method SetLength(len: nat)
      requires len <= ptr.Length
      modifies this, ptr
      ensures Valid() && used == len + 1 && Contents() == old(ptr[..len])
      ensures ptr == old(ptr) || fresh(ptr)
    {
      ghost var before := ptr[..];
      Realloc(len + 1);
      assert ptr[..len] == before[..len];
      used := len + 1;
      ptr[len] := '\0';
    }
  }
}

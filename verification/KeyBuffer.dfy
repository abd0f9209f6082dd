/** The copy of a key into the buffer its node owns, write by write. */
module KeyBuffer {
  import opened Basics
  import opened Chunks

  /** memcpy: the buffer after n characters, None once a write has landed outside of it. */
  function Copied(buf: string, src: string, n: nat): Option<string>
    requires n <= |src|
  {
    if n == 0 then Some(buf)
    else
      match Copied(buf, src, n - 1)
      case None => None
      case Some(b) => if n - 1 < |b| then Some(b[n - 1 := src[n - 1]]) else None
  }

  /** The copy stays inside exactly as long as it is no longer than the buffer, and what it leaves is this. */
  lemma {:induction false} CopyIs(buf: string, src: string, n: nat)
    requires n <= |src|
    ensures Copied(buf, src, n) == if n <= |buf| then Some(src[..n] + buf[n..]) else None
  {
    if n == 0 {
      assert src[..0] + buf[0..] == buf;
    } else {
      CopyIs(buf, src, n - 1);
      if n <= |buf| {
        assert (src[..n - 1] + buf[n - 1..])[n - 1 := src[n - 1]] == src[..n] + buf[n..];
      }
    }
  }

  /**
    justice_engine_allocate copies a key and the character behind it. All writes stay inside
    the node's buffer exactly when the key is shorter than the buffer, and then its first nkey
    characters are the key; a longer key fills the buffer, and the next write is outside.
    */
  lemma KeyCopied(buf: string, key: string, behind: char)
    requires |buf| == KEY_SIZE_MAX
    ensures var c := Copied(buf, key + [behind], |key| + 1);
            && (c.Some? <==> |key| < KEY_SIZE_MAX)
            && (c.Some? ==> |c.value| == KEY_SIZE_MAX && c.value[..|key|] == key)
    ensures |key| >= KEY_SIZE_MAX ==>
              && Copied(buf, key + [behind], KEY_SIZE_MAX) == Some(key[..KEY_SIZE_MAX])
              && Copied(buf, key + [behind], KEY_SIZE_MAX + 1).None?
  {
    var src := key + [behind];
    CopyIs(buf, src, |key| + 1);
    if |key| >= KEY_SIZE_MAX {
      CopyIs(buf, src, KEY_SIZE_MAX);
      CopyIs(buf, src, KEY_SIZE_MAX + 1);
      assert src[..KEY_SIZE_MAX] + buf[KEY_SIZE_MAX..] == key[..KEY_SIZE_MAX];
    } else {
      assert src[..|key| + 1][..|key|] == key;
    }
  }

  /** The copy in place, of a source that does not run past the buffer. */
  method CopyInto(buf: array<char>, src: string)
    requires Copied(buf[..], src, |src|).Some?
    modifies buf
    ensures Some(buf[..]) == Copied(old(buf[..]), src, |src|)
  {
    CopyIs(buf[..], src, |src|);
    var i := 0;
    while i < |src|
      invariant i <= |src| <= buf.Length && Some(buf[..]) == Copied(old(buf[..]), src, i)
    {
      buf[i] := src[i];
      i := i + 1;
    }
  }

  /** A key on its way through a node's buffer. */
  method BufferKey(key: string, behind: char) returns (kept: string)
    requires KeyFits(key)
    ensures kept == key
  {
    var buf := new char[KEY_SIZE_MAX];
    KeyCopied(buf[..], key, behind);
    CopyInto(buf, key + [behind]);
    return buf[..|key|];
  }
}

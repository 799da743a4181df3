/** The writing half of `iolib.c`: the log file is written through a window of CHUNKSZ bytes that is
    mapped over its end, and the file left behind is exactly the bytes put. */
module IoLib {
  import opened Wire
  import opened Wrappers

  const CHUNKSZ: nat := 0x100000

  const OPC_VERSION: int32 := 0xdeafca1f - TWO_32
  const OPC_MARK: int32 := 1
  const OPC_THREAD: int32 := 2
  const VERSION_MAJOR: int32 := 1
  const VERSION_MINOR: int32 := 0
  const VERSION_REV: int32 := 0

  class TraceWriter {
    const wsize: nat           // sizeof(void*)
    var file: bytes            // what lies in the file before the mapped window
    var window: array<byte>    // filePtr .. endPtr; empty while nothing is mapped
    var curPtr: nat            // next free byte, relative to the window
    var fileOffset: nat        // end of the window in the file
    var reentrance: nat
    var curThread: nat
    ghost var fields: seq<Field>  // what has been put

    /** The window is placed right; holds in the middle of a primitive too. */
    ghost predicate Mapped()
      reads this`file, this`window, this`curPtr, this`fileOffset, window
    {
      && ValidWordSize(wsize)
      && window.Length in {0, CHUNKSZ} && curPtr <= window.Length
      && |file| % 4 == 0 && fileOffset == |file| + window.Length
    }

    /** Between primitives the position is a multiple of four, so a word never straddles two windows,
        and the bytes put are the encodings of the fields put. */
    ghost predicate Valid()
      reads this`file, this`window, this`curPtr, this`fileOffset, this`fields, window
    {
      Mapped() && curPtr % 4 == 0 && FieldsOk(wsize, fields) && Contents() == EncFields(wsize, fields)
    }

    /** The bytes put so far. */
    ghost function Contents(): bytes
      reads this`file, this`window, this`curPtr, this`fileOffset, window
      requires Mapped()
    {
      file + window[..curPtr]
    }

    /** What a primitive adds when the call it belongs to is the outermost one, and nothing otherwise. */
    ghost function Logged(f: Field): seq<Field>
      reads this`reentrance
    {
      if reentrance > 1 then [] else [f]
    }

    /** `iolib_init` in write mode. */
    constructor (wsize: nat)
      requires ValidWordSize(wsize)
      ensures Valid() && fresh(window) && this.wsize == wsize
      ensures reentrance == 0 && curThread == 0
      ensures fields == Header(wsize)
    {
      this.wsize := wsize;
      file, curPtr, fileOffset := [], 0, 0;
      window := new byte[0];
      reentrance, curThread, fields := 0, 0, [];
      new;
      assert Valid();
      hide Valid, Mapped, EncFields, FieldsOk;
      PutInt(OPC_VERSION);
      PutInt(VERSION_MAJOR);
      PutInt(VERSION_MINOR);
      PutInt(VERSION_REV);
      PutInt(wsize);
    }

    /** `iolib_fini`: cuts the unused part of the window off and returns the file.  No byte is lost or
        duplicated at a window boundary, however many windows there were. */
    method Fini() returns (left: bytes)
      requires Valid()
      ensures left == EncFields(wsize, fields)
    {
      left := file + window[..];
      if curPtr < window.Length {
        left := left[..fileOffset - (window.Length - curPtr)];
      }
    }

    /** Maps the next CHUNKSZ bytes of the file; the old window stays in the file as it is. */
    method Enlarge()
      requires Mapped() && curPtr == window.Length
      modifies this`file, this`window, this`curPtr, this`fileOffset
      ensures Mapped() && fresh(window) && window.Length == CHUNKSZ && curPtr == 0
      ensures Contents() == old(Contents())
    {
      file := file + window[..];
      window := new byte[CHUNKSZ](_ => 0);
      fileOffset := fileOffset + CHUNKSZ;
      curPtr := 0;
    }

    /** Stores into the window what fits there. */
    method Store(e: bytes)
      requires Mapped() && curPtr + |e| <= window.Length
      modifies this`curPtr, window
      ensures Mapped() && curPtr == old(curPtr) + |e|
      ensures Contents() == old(Contents()) + e
    {
      var i := 0;
      while i < |e|
        invariant i <= |e| && Mapped() && curPtr == old(curPtr) + i
        invariant window[..old(curPtr)] == old(window[..curPtr])
        invariant window[old(curPtr)..curPtr] == e[..i]
      {
        window[curPtr] := e[i];
        curPtr, i := curPtr + 1, i + 1;
      }
      assert window[..curPtr] == window[..old(curPtr)] + window[old(curPtr)..curPtr];
    }

    /** The copy loop shared by the variable-length primitives: may run over any number of windows. */
    method Copy(src: bytes)
      requires Mapped()
      modifies this`file, this`window, this`curPtr, this`fileOffset, window
      ensures Mapped() && (window == old(window) || fresh(window))
      ensures Contents() == old(Contents()) + src
      ensures old(curPtr) % 4 == 0 && |src| % 4 == 0 ==> curPtr % 4 == 0
    {
      var left, s := |src|, 0;
      while left > 0
        invariant 0 <= left && s + left == |src| && Mapped() && (window == old(window) || fresh(window))
        invariant Contents() == old(Contents()) + src[..s]
        decreases left, CHUNKSZ - (window.Length - curPtr)
      {
        var avail := window.Length - curPtr;
        if left <= avail {
          Store(src[s..]);
          s, left := |src|, 0;
        } else {
          Store(src[s..s + avail]);
          s, left := s + avail, left - avail;
          Enlarge();
        }
      }
      if old(curPtr) % 4 == 0 && |src| % 4 == 0 {
        AlignedCopy(old(|file|), old(curPtr), |src|, |file|, curPtr);
      }
    }

    /** Fills up with zeros to a multiple of four; the window ends on one, so no room is needed. */
    method Pad()
      requires Mapped()
      modifies this`curPtr, window
      ensures Mapped() && curPtr % 4 == 0
      ensures Contents() == old(Contents()) + Zeros(PadLen(old(|Contents()|)))
    {
      ghost var n := 0;
      while curPtr % 4 != 0
        invariant Mapped() && n <= PadLen(old(curPtr)) && curPtr == old(curPtr) + n
        invariant Contents() == old(Contents()) + Zeros(n)
        decreases PadLen(old(curPtr)) - n
      {
        PadCount(old(curPtr), n);
        Store([0]);
        n := n + 1;
        assert Zeros(n) == Zeros(n - 1) + [0];
      }
      PadCount(old(curPtr), n);
      PadLenShift(|file|, old(curPtr));
    }

    /** The word store of `putInt`, which `putString` and `putBytes` also start with. */
    method PutRawInt(arg: int32)
      requires Mapped() && curPtr % 4 == 0
      modifies this`file, this`window, this`curPtr, this`fileOffset, window
      ensures Mapped() && curPtr % 4 == 0 && (window == old(window) || fresh(window))
      ensures Contents() == old(Contents()) + EncInt(arg)
    {
      if curPtr >= window.Length { Enlarge(); }
      Store(EncInt(arg));
    }

    /** Records the field whose bytes have just been stored. */
    ghost method Note(was: bytes, f: Field)
      requires Mapped() && curPtr % 4 == 0 && FieldsOk(wsize, fields) && FieldOk(wsize, f)
      requires was == EncFields(wsize, fields) && Contents() == was + EncField(wsize, f)
      modifies this`fields
      ensures Valid() && fields == old(fields) + [f]
    {
      EncFieldsSnoc(wsize, fields, f);
      fields := fields + [f];
    }

    method PutInt(arg: int32)
      requires Valid()
      modifies this`file, this`window, this`curPtr, this`fileOffset, this`fields, window
      ensures Valid() && (window == old(window) || fresh(window))
      ensures fields == old(fields) + Logged(Int(arg))
    {
      if reentrance > 1 { return; }
      hide EncFields, FieldsOk, LittleEndian, Pow256;
      ghost var was := Contents();
      PutRawInt(arg);
      Note(was, Int(arg));
    }

    method PutIntPtr(arg: Option<int32>)
      requires Valid()
      modifies this`file, this`window, this`curPtr, this`fileOffset, this`fields, window
      ensures Valid() && (window == old(window) || fresh(window))
      ensures fields == old(fields) + Logged(OptInt(arg))
    {
      if reentrance > 1 { return; }
      hide EncFields, FieldsOk, LittleEndian, Pow256;
      ghost var was := Contents();
      StoreIntPtr(arg);
      Note(was, OptInt(arg));
    }

    method StoreIntPtr(arg: Option<int32>)
      requires Mapped() && curPtr % 4 == 0
      modifies this`file, this`window, this`curPtr, this`fileOffset, window
      ensures Mapped() && curPtr % 4 == 0 && (window == old(window) || fresh(window))
      ensures Contents() == old(Contents()) + EncField(wsize, OptInt(arg))
    {
      hide EncInt;
      ghost var was := Contents();
      var val: int32 := 0;
      if arg == None || arg.value == MARKER {
        PutRawInt(MARKER);
        if arg != None { val := MARKER; }
      } else {
        val := arg.value;
      }
      PutRawInt(val);
      assert arg == None || arg.value == MARKER ==>
        (was + EncInt(MARKER)) + EncInt(val) == was + (EncInt(MARKER) + EncInt(val));
    }

    method PutLongLong(arg: nat)
      requires Valid() && arg < TWO_64
      modifies this`file, this`window, this`curPtr, this`fileOffset, this`fields, window
      ensures Valid() && (window == old(window) || fresh(window))
      ensures fields == old(fields) + Logged(Long(arg))
    {
      if reentrance > 1 { return; }
      hide EncFields, FieldsOk, LittleEndian, Pow256;
      ghost var was := Contents();
      Copy(LittleEndian(arg, 8));
      Note(was, Long(arg));
    }

    method PutPtr(arg: nat)
      requires Valid() && arg < Pow256(wsize)
      modifies this`file, this`window, this`curPtr, this`fileOffset, this`fields, window
      ensures Valid() && (window == old(window) || fresh(window))
      ensures fields == old(fields) + Logged(Ptr(arg))
    {
      if reentrance > 1 { return; }
      hide EncFields, FieldsOk, LittleEndian, Pow256;
      ghost var was := Contents();
      Copy(LittleEndian(arg, wsize));
      Note(was, Ptr(arg));
    }

    method PutString(str: Option<bytes>)
      requires Valid() && (str.Some? ==> 0 !in str.value)
      modifies this`file, this`window, this`curPtr, this`fileOffset, this`fields, window
      ensures Valid() && (window == old(window) || fresh(window))
      ensures fields == old(fields) + Logged(Str(if str.Some? then str.value else []))
    {
      if reentrance > 1 { return; }
      hide EncFields, FieldsOk, LittleEndian, Pow256;
      ghost var was := Contents();
      if str == None {
        PutRawInt(0);
        assert EncInt(0) == EncField(wsize, Str([]));
        Note(was, Str([]));
        return;
      }
      StoreStr(str.value);
      Note(was, Str(str.value));
    }

    method StoreStr(str: bytes)
      requires Mapped() && curPtr % 4 == 0
      modifies this`file, this`window, this`curPtr, this`fileOffset, window
      ensures Mapped() && curPtr % 4 == 0 && (window == old(window) || fresh(window))
      ensures Contents() == old(Contents()) + EncField(wsize, Str(str))
    {
      hide EncField, Zeros, PadLen;
      ghost var was := Contents();
      Copy(str + [0]);
      Pad();
      StrPieces(wsize, was, str);
    }

    method PutBytes(data: Option<bytes>, size: int32)
      requires Valid() && (data.Some? && size > 0 ==> size <= |data.value|)
      modifies this`file, this`window, this`curPtr, this`fileOffset, this`fields, window
      ensures Valid() && (window == old(window) || fresh(window))
      ensures fields == old(fields) + Logged(BlobOf(data, size))
    {
      if reentrance > 1 { return; }
      hide EncFields, FieldsOk, LittleEndian, Pow256;
      ghost var was := Contents();
      var left: int32 := if data == None then 0 else size;
      var payload: bytes := if left > 0 then data.value[..left] else [];
      StoreBlob(left, payload);
      Note(was, Blob(left, payload));
    }

    method StoreBlob(left: int32, payload: bytes)
      requires Mapped() && curPtr % 4 == 0 && |payload| == if left > 0 then left else 0
      modifies this`file, this`window, this`curPtr, this`fileOffset, window
      ensures Mapped() && curPtr % 4 == 0 && (window == old(window) || fresh(window))
      ensures Contents() == old(Contents()) + EncField(wsize, Blob(left, payload))
    {
      hide EncFields, FieldsOk, EncInt, EncField, Zeros, PadLen;
      ghost var was := Contents();
      PutRawInt(left);
      Copy(payload);
      Pad();
      BlobPieces(wsize, was, left, payload);
    }

    /** `putCmd`, after the lock is taken: opens a record unless one is open, naming the thread when it
        is not the one that opened the last record. */
    method PutCmd(thr: nat, cmd: int32)
      requires Valid() && thr < Pow256(wsize)
      modifies this, window
      ensures Valid() && (window == old(window) || fresh(window))
      ensures reentrance == old(reentrance) + 1
      ensures curThread == if old(reentrance) == 0 then thr else old(curThread)
      ensures fields == old(fields) + if old(reentrance) > 0 then [] else Opening(old(curThread), thr, cmd)
    {
      hide Mapped, EncFields, FieldsOk;
      reentrance := reentrance + 1;
      if reentrance > 1 { return; }
      ghost var was := fields;
      if thr != curThread {
        PutInt(OPC_THREAD);
        PutPtr(thr);
        curThread := thr;
        assert fields == was + [Int(OPC_THREAD), Ptr(thr)];
      }
      PutInt(cmd);
    }

    /** `putTime` and the `endCmd` it ends with. */
    method PutTime(bgn: nat, end: nat)
      requires Valid() && reentrance > 0 && bgn < TWO_64 && end < TWO_64
      modifies this, window
      ensures Valid() && (window == old(window) || fresh(window))
      ensures reentrance == old(reentrance) - 1 && curThread == old(curThread)
      ensures fields == old(fields) + if old(reentrance) > 1 then [] else [Long(bgn), Long(end)]
    {
      hide Mapped, EncFields, FieldsOk;
      PutLongLong(bgn);
      PutLongLong(end);
      reentrance := reentrance - 1;
    }
  }

  function Header(wsize: nat): seq<Field>
    requires ValidWordSize(wsize)
  {
    [Int(OPC_VERSION), Int(VERSION_MAJOR), Int(VERSION_MINOR), Int(VERSION_REV), Int(wsize)]
  }

  /** The block that `putBytes(data, size)` writes. */
  function BlobOf(data: Option<bytes>, size: int32): (f: Field)
    requires data.Some? && size > 0 ==> size <= |data.value|
    ensures FieldOk(8, f) && FieldOk(4, f)
  {
    if data == None then Blob(0, []) else Blob(size, if size > 0 then data.value[..size] else [])
  }

  function Opening(curThread: nat, thr: nat, cmd: int32): seq<Field> {
    (if thr != curThread then [Int(OPC_THREAD), Ptr(thr)] else []) + [Int(cmd)]
  }
}

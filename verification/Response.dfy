/** Responses of the box: a return code, then a counted list of sized tuples, or an error text. */
module Response {

  import opened Common
  import opened Wire
  import opened Octopus

  datatype TupleData = TupleData(cnt: nat, data: Tuple)

  /** What the caller asks of the number of tuples. */
  datatype CountFlags = CountFlags(uniq: bool, need: bool)

  // ---------------------------------------------------------------------------------------------
  // Encoding
  // ---------------------------------------------------------------------------------------------

  function Counted(data: seq<Tuple>): (tds: seq<TupleData>)
    ensures |tds| == |data|
  {
    seq(|data|, i requires 0 <= i < |data| => TupleData(|data[i]|, data[i]))
  }

  function EncSized(td: TupleData): Bytes { Enc32(|EncTuple(td.data)|) + EncTuple(td.data) }

  /** Without tuples not even their number is written. */
  function EncOk(data: seq<Tuple>): Bytes {
    Enc32(0) + if data == [] then [] else EncCounted(EncSized, Counted(data))
  }

  /** An error carries the number of fields given, where its length would be, and the first field. */
  function EncError(code: U32, data: seq<Tuple>): Bytes
    requires data != [] && data[0] != []
  {
    Enc32(code) + (Enc32(|data[0]|) + data[0][0])
  }

  // ---------------------------------------------------------------------------------------------
  // Decoding
  // ---------------------------------------------------------------------------------------------

  /** The number of tuples and the bytes of the tuples. */
  function DecStatus(s: Bytes): Read<nat> {
    var (code, s1) :- Dec32(s);
    if code == 0 then
      if s1 == [] then Got(0, []) else if |s1| < 4 then Failed else Dec32(s1)
    else if |s| < 4 then Beyond
    else Failed
  }

  /** The text told for an error: all that follows the code, less one closing zero. */
  function ErrorText(s: Bytes): Bytes
    requires |s| >= 4
  {
    DropZero(s[4..])
  }

  function DropZero(s: Bytes): Bytes {
    if s != [] && s[|s| - 1] == 0 then s[..|s| - 1] else s
  }

  lemma NothingCut(n: nat)
    requires n < TWO_TO_THE_32
    ensures Cut(n) == n
  {
  }

  /** The lengths told so far are added up in 32 bits and held against the size of the tuple. */
  function DecFields(s: Bytes, n: nat, total: U32, size: nat): Read<Tuple>
    decreases n
  {
    if n == 0 then Got([], s)
    else
      var (len, s1) :- DecUint(s, 32, Ber);
      var sum := Cut(total + len);
      if sum > size then Failed
      else if len > |s1| then Beyond
      else Wire.After([s1[..len]], DecFields(s1[len..], n - 1, sum, size))
  }

  function DecSized(s: Bytes): Read<TupleData> {
    var (size, s1) :- Dec32(s);
    if Cut(|s1|) < size then Failed
    else
      var (cnt, s2) :- Dec32(s1);
      var (fields, s3) :- DecFields(s2, cnt, 0, size);
      Got(TupleData(cnt, fields), s3)
  }

  function DecResponse(s: Bytes, flags: CountFlags): Read<seq<TupleData>> {
    var (cnt, body) :- DecStatus(s);
    if flags.uniq && cnt > 2 then Failed
    else if flags.need && cnt == 0 then Failed
    else
      var (tuples, rest) :- DecMany(DecSized, body, cnt);
      if rest != [] then Failed else Got(tuples, [])
  }

  // ---------------------------------------------------------------------------------------------
  // What comes back
  // ---------------------------------------------------------------------------------------------

  lemma LengthInverse(f: Bytes, t: Bytes)
    requires |f| < TWO_TO_THE_32
    ensures EncField(f) == EncUint(|f|, 32, Ber) + f
    ensures DecUint(EncUint(|f|, 32, Ber) + (f + t), 32, Ber) == Got(|f|, f + t)
  {
    hide EncUint, DecUint, Pow;
    Powers();
    UintInverse(|f|, 32, Ber, f + t);
  }

  lemma FieldStep(f: Bytes, tail: Bytes, n: nat, total: U32, size: nat)
    requires |f| < TWO_TO_THE_32 && total + |f| <= size < TWO_TO_THE_32
    ensures DecFields(EncField(f) + tail, n + 1, total, size)
         == Wire.After([f], DecFields(tail, n, total + |f|, size))
  {
    hide DecUint, EncUint, EncField, Cut;
    LengthInverse(f, tail);
    NothingCut(total + |f|);
    assert EncField(f) + tail == EncUint(|f|, 32, Ber) + (f + tail);
    assert (f + tail)[..|f|] == f && (f + tail)[|f|..] == tail;
  }

  lemma FieldLen(f: Bytes)
    ensures |EncField(f)| >= |f|
  {
  }

  lemma {:induction false} FieldsInverse(fs: Tuple, t: Bytes, total: U32, size: nat)
    requires forall f :: f in fs ==> |f| < TWO_TO_THE_32
    requires total + |EncMany(EncField, fs)| <= size < TWO_TO_THE_32
    ensures DecFields(EncMany(EncField, fs) + t, |fs|, total, size) == Got(fs, t)
  {
    hide EncField, DecUint, Cut;
    if fs == [] {
      assert EncMany(EncField, fs) + t == t;
    } else {
      EncManyHead(EncField, fs);
      var tail := EncMany(EncField, fs[1..]) + t;
      FieldLen(fs[0]);
      FieldStep(fs[0], tail, |fs| - 1, total, size);
      assert EncMany(EncField, fs) + t == EncField(fs[0]) + tail;
      FieldsInverse(fs[1..], t, total + |fs[0]|, size);
      assert [fs[0]] + fs[1..] == fs;
    }
  }

  lemma SizedInverse(td: TupleData, t: Bytes)
    requires td.cnt == |td.data| && TupleFits(td.data) && |EncSized(td) + t| < TWO_TO_THE_32
    ensures DecSized(EncSized(td) + t) == Got(td, t)
  {
    hide Enc32, Dec32, EncField, DecFields, Cut;
    var s2 := EncMany(EncField, td.data) + t;
    var s1 := Enc32(|td.data|) + s2;
    assert EncSized(td) + t == Enc32(|EncTuple(td.data)|) + s1;
    Inverse32(|EncTuple(td.data)|, s1);
    Inverse32(|td.data|, s2);
    NothingCut(|s1|);
    FieldsInverse(td.data, t, 0, |EncTuple(td.data)|);
  }

  /**
   * A well-formed response that fits 32 bits comes back tuple by tuple and nothing is left, unless the
   * count is not what was asked for: a caller that asked for one tuple is still given two.
   */
  lemma ResponseInverse(data: seq<Tuple>, flags: CountFlags)
    requires TuplesFit(data) && |EncOk(data)| < TWO_TO_THE_32
    ensures DecResponse(EncOk(data), flags)
         == if (flags.uniq && |data| > 2) || (flags.need && data == []) then Failed else Got(Counted(data), [])
  {
    hide Enc32, Dec32, EncSized, DecSized;
    var tds := Counted(data);
    var body := EncMany(EncSized, tds);
    if data == [] {
      Inverse32(0, []);
      assert Enc32(0) + [] == Enc32(0);
    } else {
      Inverse32(0, EncCounted(EncSized, tds));
      Inverse32(|tds|, body);
      forall td | td in tds ensures Inverse(EncSized, DecSized, td, |body| + 1) {
        forall t: Bytes | |EncSized(td) + t| < |body| + 1 ensures DecSized(EncSized(td) + t) == Got(td, t) {
          SizedInverse(td, t);
        }
      }
      assert body + [] == body;
      ManyInverse(EncSized, DecSized, tds, [], |body| + 1);
    }
  }

  /** An error is told as an error, and its text starts with four bytes that are not part of the message. */
  lemma ErrorInverse(code: U32, data: seq<Tuple>, flags: CountFlags)
    requires code != 0 && data != [] && data[0] != [] && data[0][0] != []
    ensures DecResponse(EncError(code, data), flags) == Failed
    ensures |EncError(code, data)| >= 4
    ensures ErrorText(EncError(code, data)) == Enc32(|data[0]|) + DropZero(data[0][0])
  {
    hide Enc32, Dec32;
    var msg := data[0][0];
    Inverse32(code, Enc32(|data[0]|) + msg);
    assert EncError(code, data)[4..] == Enc32(|data[0]|) + msg;
    assert (Enc32(|data[0]|) + msg)[..|Enc32(|data[0]|)| + |msg| - 1] == Enc32(|data[0]|) + msg[..|msg| - 1];
  }

  // ---------------------------------------------------------------------------------------------
  // What is refused
  // ---------------------------------------------------------------------------------------------

  /** A field whose length takes the sum over the size of its tuple is an error; one past the end is out of range. */
  lemma FieldBounds(len: U32, rest: Bytes, n: nat, total: U32, size: nat)
    requires total + len < TWO_TO_THE_32
    ensures var r := DecFields(EncUint(len, 32, Ber) + rest, n + 1, total, size);
      && (total + len > size ==> r == Failed)
      && (total + len <= size && len > |rest| ==> r == Beyond)
      && (total + len <= size && len <= |rest| ==>
            r == Wire.After([rest[..len]], DecFields(rest[len..], n, total + len, size)))
  {
    hide DecUint, EncUint, Pow;
    Powers();
    UintInverse(len, 32, Ber, rest);
    NothingCut(total + len);
  }

  /** A tuple that tells a size beyond what is left is an error. */
  lemma CutTupleRefused(size: U32, rest: Bytes)
    requires |rest| < size
    ensures DecSized(Enc32(size) + rest) == Failed
  {
    hide Enc32, Dec32;
    Inverse32(size, rest);
    NothingCut(|rest|);
  }

  /** Bytes behind the tuples are an error. */
  lemma ExtraBytesRefused(data: seq<Tuple>, t: Bytes, flags: CountFlags)
    requires TuplesFit(data) && data != [] && t != [] && |EncOk(data) + t| < TWO_TO_THE_32
    ensures DecResponse(EncOk(data) + t, flags) == Failed
  {
    hide Enc32, Dec32, EncSized, DecSized;
    var tds := Counted(data);
    var body := EncMany(EncSized, tds);
    assert EncOk(data) + t == Enc32(0) + (Enc32(|tds|) + (body + t));
    Inverse32(0, Enc32(|tds|) + (body + t));
    Inverse32(|tds|, body + t);
    forall td | td in tds ensures Inverse(EncSized, DecSized, td, |body + t| + 1) {
      forall r: Bytes | |EncSized(td) + r| < |body + t| + 1 ensures DecSized(EncSized(td) + r) == Got(td, r) {
        SizedInverse(td, r);
      }
    }
    ManyInverse(EncSized, DecSized, tds, t, |body + t| + 1);
  }

  // ---------------------------------------------------------------------------------------------
  // The programs
  // ---------------------------------------------------------------------------------------------

  /** The caller of an error response gives at least one tuple with one field. */
  method PackResponseStatus(code: U32, data: seq<Tuple>) returns (w: Bytes)
    requires code != 0 ==> data != [] && data[0] != []
    ensures w == if code == 0 then EncOk(data) else EncError(code, data)
  {
    hide Enc32, EncTuple;
    w := PackCount([], code);
    if code == 0 {
      if |data| == 0 {
        return;
      }
      w := PackCount(w, |data|);
      for i := 0 to |data|
        invariant w == Enc32(0) + (Enc32(|data|) + EncMany(EncSized, Counted(data)[..i]))
      {
        assert Counted(data)[..i + 1][..i] == Counted(data)[..i];
        var payload := PackTuple([], data[i]);
        w := PackCount(w, |payload|);
        w := w + payload;
      }
      assert Counted(data)[..|data|] == Counted(data);
      return;
    }
    w := PackCount(w, |data[0]|);
    w := w + data[0][0];
  }

  method UnpackResponseStatus(data: Bytes) returns (r: Read<nat>)
    ensures r == DecStatus(data)
  {
    var rdr := new Reader(data);
    r := ReadStatus(rdr);
  }

  method ReadStatus(rdr: Reader) returns (r: Read<nat>)
    requires rdr.Valid() && rdr.Rest() == rdr.data
    modifies rdr
    ensures r == DecStatus(rdr.data)
  {
    hide DecUint;
    var code, okCode := UnpackUint32(rdr, Default);
    if !okCode {
      return Failed;
    }
    if code == 0 {
      if rdr.Len() == 0 {
        return Got(0, []);
      }
      if rdr.Len() < 4 {
        return Failed;
      }
      var cnt, okCnt := UnpackUint32(rdr, Default);
      if !okCnt {
        return Failed;
      }
      return Got(cnt, rdr.data[|rdr.data| - rdr.Len()..]);
    }
    if |rdr.data| < 4 {
      return Beyond;
    }
    return Failed;
  }

  /** The inner loop: the fields of one tuple, as slices of the response. */
  method ReadFields(rdr: Reader, n: nat, size: nat) returns (r: Read<Tuple>)
    requires rdr.Valid()
    modifies rdr
    ensures rdr.Valid() && r == DecFields(old(rdr.Rest()), n, 0, size) && (r.Got? ==> r.rest == rdr.Rest())
  {
    hide DecUint, Cut;
    var fields: Tuple, total: U32 := [], 0;
    ghost var first := rdr.Rest();
    AfterJoins(fields, fields, DecFields(first, n, 0, size));
    for i := 0 to n
      invariant rdr.Valid()
      invariant DecFields(first, n, 0, size) == Wire.After(fields, DecFields(rdr.Rest(), n - i, total, size))
    {
      var len, ok := UnpackUint32(rdr, Ber);
      if !ok {
        return Failed;
      }
      if Cut(total + len) > size {
        return Failed;
      }
      total := Cut(total + len);
      if len > rdr.Len() {
        return Beyond;
      }
      var from := |rdr.data| - rdr.Len();
      var field := rdr.data[from..from + len];
      assert field == rdr.Rest()[..len];
      rdr.Skip(len);
      AfterJoins(fields, [field], DecFields(rdr.Rest(), n - i - 1, total, size));
      fields := fields + [field];
    }
    AfterJoins(fields, [], Failed);
    return Got(fields, rdr.Rest());
  }

  method ReadSized(rdr: Reader) returns (r: Read<TupleData>)
    requires rdr.Valid()
    modifies rdr
    ensures rdr.Valid() && r == DecSized(old(rdr.Rest())) && (r.Got? ==> r.rest == rdr.Rest())
  {
    hide DecUint, DecFields, Cut;
    var size, okSize := UnpackUint32(rdr, Default);
    if !okSize {
      return Failed;
    }
    if Cut(rdr.Len()) < size {
      return Failed;
    }
    var cnt, okCnt := UnpackUint32(rdr, Default);
    if !okCnt {
      return Failed;
    }
    var fields := ReadFields(rdr, cnt, size);
    if !fields.Got? {
      return fields.PropagateFailure<TupleData>();
    }
    return Got(TupleData(cnt, fields.value), fields.rest);
  }

  method ProcessResponse(data: Bytes, flags: CountFlags) returns (r: Read<seq<TupleData>>)
    ensures r == DecResponse(data, flags)
  {
    hide DecStatus, DecSized;
    var status := UnpackResponseStatus(data);
    if !status.Got? {
      return status.PropagateFailure<seq<TupleData>>();
    }
    var cnt, body := status.value, status.rest;
    if flags.uniq && cnt > 2 {
      return Failed;
    }
    if flags.need && cnt == 0 {
      return Failed;
    }
    var rdr := new Reader(body);
    var tuples := ReadTuples(rdr, cnt);
    if !tuples.Got? {
      return tuples;
    }
    if rdr.Len() > 0 {
      return Failed;
    }
    return Got(tuples.value, []);
  }

  /** The outer loop. */
  method ReadTuples(rdr: Reader, n: nat) returns (r: Read<seq<TupleData>>)
    requires rdr.Valid()
    modifies rdr
    ensures rdr.Valid() && r == DecMany(DecSized, old(rdr.Rest()), n) && (r.Got? ==> r.rest == rdr.Rest())
  {
    hide DecSized;
    var tuples: seq<TupleData> := [];
    ghost var first := rdr.Rest();
    AfterJoins(tuples, tuples, DecMany(DecSized, first, n));
    for i := 0 to n
      invariant rdr.Valid()
      invariant DecMany(DecSized, first, n) == Wire.After(tuples, DecMany(DecSized, rdr.Rest(), n - i))
    {
      var td := ReadSized(rdr);
      if !td.Got? {
        return td.PropagateFailure<seq<TupleData>>();
      }
      AfterJoins(tuples, [td.value], DecMany(DecSized, rdr.Rest(), n - i - 1));
      tuples := tuples + [td.value];
    }
    AfterJoins(tuples, [], Failed);
    return Got(tuples, rdr.Rest());
  }
}

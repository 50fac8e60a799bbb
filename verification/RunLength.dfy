/** Run-length coding of sprites: one byte for up to 64 equal palette indices. */
module RunLength {
  import opened Bytes

  const MAX_RUN := 64

  /** Indices a byte can hold. */
  predicate IsIndex(v: int) { 0 <= v < 4 }

  // ---- The format ----

  function Repeat(v: int, n: nat): seq<int> { seq(n, i => v) }

  /** The run a byte stands for: its length less one in the upper six bits, the index in the lower two. */
  function DecodeByte(b: Byte): seq<int> { Repeat(b % 4, b / 4 + 1) }

  function Decode(code: seq<Byte>): seq<int> {
    if code == [] then [] else DecodeByte(code[0]) + Decode(code[1..])
  }

  // ---- The encoder ----

  /** How far the run at the front of s goes, given that it goes at least r. */
  function RunFrom(s: seq<int>, r: nat): (n: nat)
    requires 1 <= r <= |s| && r <= MAX_RUN
    ensures r <= n <= |s| && n <= MAX_RUN
    decreases MAX_RUN - r
  {
    if r < |s| && s[r] == s[0] && r < MAX_RUN then RunFrom(s, r + 1) else r
  }

  lemma {:induction false} RunStops(s: seq<int>, r: nat)
    requires 1 <= r <= |s| && r <= MAX_RUN
    ensures var n := RunFrom(s, r);
            && (forall k :: r <= k < n ==> s[k] == s[0])
            && (n == |s| || n == MAX_RUN || s[n] != s[0])
    decreases MAX_RUN - r
  {
    if r < |s| && s[r] == s[0] && r < MAX_RUN { RunStops(s, r + 1); }
  }

  function EncodeByte(run: nat, v: int): Byte
    requires 1 <= run <= MAX_RUN
  {
    (run - 1) * 4 + v % 4
  }

  function Encode(s: seq<int>): seq<Byte> {
    if s == [] then [] else [EncodeByte(RunFrom(s, 1), s[0])] + Encode(s[RunFrom(s, 1)..])
  }

  /** The shortest code, among all codes of the format, that decodes to these indices. */
  ghost predicate IsShortest(code: seq<Byte>, s: seq<int>) {
    forall other :: Codes(other, s) ==> |code| <= |other|
  }

  ghost predicate Codes(code: seq<Byte>, s: seq<int>) { Decode(code) == s }

  /** The code the encoder computes, which decodes to s exactly when s holds indices only, and then in the fewest
      bytes. */
  ghost predicate IsBestCode(code: seq<Byte>, s: seq<int>) {
    code == Encode(s) && (Codes(code, s) <==> AllIndices(s)) && IsShortest(code, s)
  }

  predicate AllIndices(s: seq<int>) { forall v :: v in s ==> IsIndex(v) }

  /** A run of one value from position i on that cannot go on: the list ends, a byte holds no more, or another value
      follows. */
  ghost predicate IsLongestRun(s: seq<int>, i: nat, run: nat) {
    && 1 <= run <= MAX_RUN && i + run <= |s|
    && (forall k :: i <= k < i + run ==> s[k] == s[i])
    && (i + run == |s| || run == MAX_RUN || s[i + run] != s[i])
  }

  /** The inner loop finds the longest run of one value from position i on, up to the longest a byte holds. */
  method CountRun(indices: seq<int>, i: nat) returns (run: nat)
    requires i < |indices|
    ensures run == RunFrom(indices[i..], 1)
    ensures IsLongestRun(indices, i, run)
  {
    var v, n := indices[i], |indices|;
    ghost var ahead := indices[i..];
    run := 1;
    while i + run < n && indices[i + run] == v && run < 64
      invariant 1 <= run <= |ahead| && run <= MAX_RUN
      invariant RunFrom(ahead, 1) == RunFrom(ahead, run)
      invariant forall k :: i <= k < i + run ==> indices[k] == v
    {
      run := run + 1;
    }
  }

  method RleEncode(indices: seq<int>) returns (out: seq<Byte>)
    ensures IsBestCode(out, indices)
  {
    out := [];
    var i := 0;
    var n := |indices|;
    NothingEncoded(indices);
    while i < n
      invariant 0 <= i <= n && EncodedSoFar(indices, i, out)
    {
      var run := CountRun(indices, i);
      var b := EncodeByte(run, indices[i]);
      EncodeNext(indices, i, run, b, out);
      out := out + [b];
      i := i + run;
    }
    AllDone(indices, out);
  }

  lemma NothingEncoded(s: seq<int>)
    ensures EncodedSoFar(s, 0, [])
  {
    assert s[0..] == s && [] + Encode(s) == Encode(s);
  }

  /** `out` is the code of what stands before position i, once the code of the rest is added. */
  ghost predicate EncodedSoFar(s: seq<int>, i: int, out: seq<Byte>) {
    0 <= i <= |s| && Encode(s) == out + Encode(s[i..])
  }

  lemma AllDone(s: seq<int>, out: seq<Byte>)
    ensures EncodedSoFar(s, |s|, out) ==> IsBestCode(out, s)
  {
    assert s[|s|..] == [] && out + [] == out;
    RoundTrip(s);
    Shortest(s);
  }

  lemma EncodeNext(s: seq<int>, i: nat, run: nat, b: Byte, out: seq<Byte>)
    requires i < |s| && run == RunFrom(s[i..], 1) && b == EncodeByte(run, s[i])
    requires EncodedSoFar(s, i, out)
    ensures EncodedSoFar(s, i + run, out + [b])
  {
    var rest := s[i..];
    assert rest[0] == s[i] && rest[run..] == s[i + run..];
    EncodeFirst(rest);
    assert out + ([b] + Encode(s[i + run..])) == out + [b] + Encode(s[i + run..]);
  }

  lemma EncodeFirst(s: seq<int>)
    requires s != []
    ensures Encode(s) == [EncodeByte(RunFrom(s, 1), s[0])] + Encode(s[RunFrom(s, 1)..])
  {
  }

  // ---- Round trip ----

  /** What two bits keep of a value. */
  function Mask(v: int): int { v % 4 }

  function Masked(s: seq<int>): seq<int> {
    if s == [] then [] else Masked(s[..|s| - 1]) + [Mask(s[|s| - 1])]
  }

  lemma {:induction false} MaskedIs(s: seq<int>)
    ensures |Masked(s)| == |s| && forall k :: 0 <= k < |s| ==> Masked(s)[k] == Mask(s[k])
  {
    if s != [] { MaskedIs(s[..|s| - 1]); }
  }

  lemma MaskedRun(s: seq<int>, run: nat)
    requires run <= |s| && forall k :: 0 <= k < run ==> s[k] == s[0]
    ensures run > 0 ==> Masked(s) == Repeat(Mask(s[0]), run) + Masked(s[run..])
  {
    MaskedIs(s);
    MaskedIs(s[run..]);
  }

  lemma {:induction false} DecodeEncode(s: seq<int>)
    ensures Decode(Encode(s)) == Masked(s)
  {
    if s != [] {
      var run := RunFrom(s, 1);
      DecodeEncode(s[run..]);
      RunStops(s, 1);
      ByteRoundTrip(run, s[0]);
      DecodeNext(EncodeByte(run, s[0]), Encode(s[run..]));
      MaskedRun(s, run);
    }
  }

  lemma DecodeNext(b: Byte, code: seq<Byte>)
    ensures Decode([b] + code) == DecodeByte(b) + Decode(code)
  {
    assert ([b] + code)[1..] == code;
  }

  lemma ByteRoundTrip(run: nat, v: int)
    requires 1 <= run <= MAX_RUN
    ensures DecodeByte(EncodeByte(run, v)) == Repeat(Mask(v), run)
  {}

  lemma MaskKeeps(v: int)
    ensures Mask(v) == v <==> IsIndex(v)
  {}

  /** Decoding gives the list back exactly when its values are indices. */
  lemma RoundTrip(s: seq<int>)
    ensures Codes(Encode(s), s) <==> AllIndices(s)
  {
    DecodeEncode(s);
    MaskedIs(s);
    forall k | 0 <= k < |s|
      ensures Masked(s)[k] == s[k] <==> IsIndex(s[k])
    {
      MaskKeeps(s[k]);
    }
    if AllIndices(s) {
      assert forall k :: 0 <= k < |s| ==> s[k] in s;
      assert Masked(s) == s;
    }
  }

  // ---- Optimality ----

  /** Leaving out what stands in front never makes the code longer. */
  lemma {:induction false} SuffixNoLonger(s: seq<int>, k: nat)
    requires k <= |s|
    ensures |Encode(s[k..])| <= |Encode(s)|
    decreases |s|
  {
    if k == 0 {
      assert s[0..] == s;
    } else if s[k..] != [] {
      var run := RunFrom(s, 1);
      if run <= k {
        SuffixNoLonger(s[run..], k - run);
        assert s[run..][k - run..] == s[k..];
      } else {
        // the suffix begins inside the first run, and its own first run goes at least as far
        var t := s[k..];
        var m := RunFrom(t, 1);
        RunNotShorter(s, k);
        SuffixNoLonger(s[run..], k + m - run);
        assert s[run..][k + m - run..] == t[m..];
      }
    }
  }

  lemma RunNotShorter(s: seq<int>, k: nat)
    requires s != [] && k < RunFrom(s, 1)
    ensures k + RunFrom(s[k..], 1) >= RunFrom(s, 1)
  {
    var t, n := s[k..], RunFrom(s[k..], 1);
    RunStops(s, 1);
    RunStops(t, 1);
    assert t[0] == s[0];
    if n < |t| && n < MAX_RUN { assert t[n] == s[k + n]; }
  }

  /** The greedy first run is at least as long as the first run of any code. */
  lemma {:induction false} CodeNoShorter(s: seq<int>, code: seq<Byte>)
    requires Decode(code) == s
    ensures |Encode(s)| <= |code|
    decreases |code|
  {
    if code != [] {
      CodeNoShorter(Decode(code[1..]), code[1..]);
      FirstRun(s, code);
      LaterSuffix(s, |DecodeByte(code[0])|);
    }
  }

  /** Taking the longest run first leaves no longer a code than taking a shorter one. */
  lemma LaterSuffix(s: seq<int>, r: nat)
    requires s != [] && r <= RunFrom(s, 1)
    ensures |Encode(s)| <= 1 + |Encode(s[r..])|
  {
    var run := RunFrom(s, 1);
    assert s[r..][run - r..] == s[run..];
    SuffixNoLonger(s[r..], run - r);
  }

  lemma FirstRun(s: seq<int>, code: seq<Byte>)
    requires code != [] && Decode(code) == s
    ensures var r := |DecodeByte(code[0])|;
            s != [] && r <= RunFrom(s, 1) && s[r..] == Decode(code[1..])
  {
    var first := DecodeByte(code[0]);
    assert s == first + Decode(code[1..]);
    assert 1 <= |first| <= MAX_RUN;
    RunStops(s, 1);
    forall k | 0 <= k < |first|
      ensures s[k] == s[0]
    {
      assert s[k] == first[k];
    }
  }

  lemma Shortest(s: seq<int>)
    ensures IsShortest(Encode(s), s)
  {
    forall other | Codes(other, s)
      ensures |Encode(s)| <= |other|
    {
      CodeNoShorter(s, other);
    }
  }

  // ---- The directory of all sprites ----

  function Concat(streams: seq<seq<Byte>>): seq<Byte> {
    if streams == [] then [] else Concat(streams[..|streams| - 1]) + streams[|streams| - 1]
  }

  /** The stream at position d of the directory. */
  function Slot(offsets: seq<nat>, flat: seq<Byte>, d: nat): seq<Byte> {
    if InOrder(offsets, flat, d) then flat[offsets[d]..offsets[d + 1]] else []
  }

  predicate InOrder(offsets: seq<nat>, flat: seq<Byte>, d: nat) {
    d + 1 < |offsets| && offsets[d] <= offsets[d + 1] <= |flat|
  }

  ghost predicate IsDirectory(offsets: seq<nat>, flat: seq<Byte>, streams: seq<seq<Byte>>) {
    && |offsets| == |streams| + 1 && offsets[|streams|] == |flat|
    && (forall d :: 0 <= d < |streams| ==> InOrder(offsets, flat, d) && Slot(offsets, flat, d) == streams[d])
  }

  lemma DirectoryGrows(offsets: seq<nat>, flat: seq<Byte>, streams: seq<seq<Byte>>, stream: seq<Byte>)
    requires IsDirectory(offsets, flat, streams)
    ensures IsDirectory(offsets + [|flat + stream|], flat + stream, streams + [stream])
  {
    var n, o, f, t := |streams|, offsets + [|flat + stream|], flat + stream, streams + [stream];
    forall d | 0 <= d < |t|
      ensures InOrder(o, f, d) && Slot(o, f, d) == t[d]
    {
      if d < n {
        assert InOrder(offsets, flat, d) && Slot(offsets, flat, d) == streams[d];
        SlotKept(offsets, flat, stream, d);
      }
    }
  }

  lemma SlotKept(offsets: seq<nat>, flat: seq<Byte>, stream: seq<Byte>, d: nat)
    requires InOrder(offsets, flat, d)
    ensures InOrder(offsets + [|flat + stream|], flat + stream, d)
    ensures Slot(offsets + [|flat + stream|], flat + stream, d) == Slot(offsets, flat, d)
  {}

  /** Concatenates the streams; entries d and d + 1 of the directory delimit stream d. */
  method BuildDirectory(streams: seq<seq<Byte>>) returns (offsets: array<nat>, flat: seq<Byte>)
    ensures flat == Concat(streams) && IsDirectory(offsets[..], flat, streams)
  {
    offsets := new nat[|streams| + 1](i => 0);
    flat := [];
    var dex := 0;
    while dex < |streams|
      invariant 0 <= dex <= |streams| && flat == Concat(streams[..dex])
      invariant IsDirectory(offsets[..dex] + [|flat|], flat, streams[..dex])
    {
      offsets[dex] := |flat|;
      assert streams[..dex + 1] == streams[..dex] + [streams[dex]];
      assert streams[..dex + 1][..dex] == streams[..dex];
      DirectoryGrows(offsets[..dex] + [|flat|], flat, streams[..dex], streams[dex]);
      assert offsets[..dex + 1] == offsets[..dex] + [|flat|];
      flat := flat + streams[dex];
      dex := dex + 1;
    }
    offsets[|streams|] := |flat|;
    assert streams[..|streams|] == streams;
    assert offsets[..] == offsets[..|streams|] + [|flat|];
  }

  /** A sprite is found again through the directory, in its shortest code. */
  lemma DirectoryDecodes(offsets: seq<nat>, flat: seq<Byte>, streams: seq<seq<Byte>>, d: nat, sprite: seq<int>)
    requires IsDirectory(offsets, flat, streams) && d < |streams|
    requires AllIndices(sprite) && streams[d] == Encode(sprite)
    ensures Codes(Slot(offsets, flat, d), sprite) && IsShortest(Slot(offsets, flat, d), sprite)
  {
    RoundTrip(sprite);
    Shortest(sprite);
  }
}

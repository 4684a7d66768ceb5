/** Captured streams and reported outputs: the bounded writer and the byte budget of one result. */
module OutputCapture {
  import opened Wrappers
  import opened Octets

  // ---------------------------------------------------------------------------
  // Bounded writer

  datatype Capture = Capture(buffer: Bytes, limit: nat, overflow: bool)

  function Written(c: Capture, content: Bytes): Capture {
    var remaining := c.limit - |c.buffer|;
    var accepted := if remaining <= 0 then 0 else if |content| > remaining then remaining else |content|;
    Capture(c.buffer + content[..accepted], c.limit, c.overflow || |content| > remaining)
  }

  class BoundedBuffer {
    var buffer: Bytes
    const limit: nat
    var overflow: bool

    ghost function View(): Capture
      reads this
    {
      Capture(buffer, limit, overflow)
    }

    constructor (limit: nat)
      ensures View() == Capture([], limit, false)
    {
      this.limit := limit;
      buffer, overflow := [], false;
    }

    /** Claims to have written everything, as `exec` requires, whatever it kept. */
    method Write(content: Bytes) returns (n: nat)
      modifies this
      ensures View() == Written(old(View()), content) && n == |content|
    {
      var remaining := limit - |buffer|;
      if remaining > 0 {
        var accepted := |content|;
        if accepted > remaining {
          accepted := remaining;
        }
        buffer := buffer + content[..accepted];
      }
      if |content| > remaining {
        overflow := true;
      }
      n := |content|;
    }
  }

  function WrittenAll(c: Capture, writes: seq<Bytes>): Capture
    decreases |writes|
  {
    if writes == [] then c else WrittenAll(Written(c, writes[0]), writes[1..])
  }

  function Concat(writes: seq<Bytes>): Bytes {
    if writes == [] then [] else writes[0] + Concat(writes[1..])
  }

  function Min(a: int, b: int): int {
    if a <= b then a else b
  }

  /** A capture that stands for everything in `total`. */
  ghost predicate Captures(c: Capture, total: Bytes) {
    c.buffer == total[..Min(|total|, c.limit)] && (c.overflow <==> |total| > c.limit)
  }

  lemma WriteCaptures(c: Capture, total: Bytes, content: Bytes)
    requires Captures(c, total)
    ensures Captures(Written(c, content), total + content)
  {
    var r := Written(c, content);
    if |total| < c.limit {
      assert r.buffer == (total + content)[..|r.buffer|];
    } else {
      assert r.buffer == c.buffer;
      assert (total + content)[..c.limit] == total[..c.limit];
    }
  }

  /** For every sequence of writes the buffer is the prefix of everything written that fits, and the overflow flag
      is set exactly when something did not fit. */
  lemma {:induction false} CaptureIsPrefix(c: Capture, total: Bytes, writes: seq<Bytes>)
    requires Captures(c, total)
    ensures Captures(WrittenAll(c, writes), total + Concat(writes)) && WrittenAll(c, writes).limit == c.limit
    decreases |writes|
  {
    if writes == [] {
      assert total + Concat(writes) == total;
    } else {
      WriteCaptures(c, total, writes[0]);
      CaptureIsPrefix(Written(c, writes[0]), total + writes[0], writes[1..]);
      assert total + writes[0] + Concat(writes[1..]) == total + Concat(writes);
    }
  }

  // ---------------------------------------------------------------------------
  // Declared outputs

  /** What `readOutput` finds at a declared path: nothing, something it must refuse, or a stable regular file. */
  datatype Found = Missing | Refused | Regular(content: Bytes)

  datatype Declaration = Declaration(logicalId: string, required: bool, found: Found)

  datatype Output = Output(logicalId: string, content: Bytes)

  datatype Read = ReadError | NoOutput | ReadOutput(output: Output)

  /** `readOutput` with the budget it is given; a negative budget refuses every file, empty ones included. */
  method ReadDeclared(d: Declaration, budget: int) returns (r: Read, left: int)
    ensures r.ReadError? <==> d.found.Refused? || (d.found.Missing? && d.required)
                              || (d.found.Regular? && |d.found.content| > budget)
    ensures r.NoOutput? <==> d.found.Missing? && !d.required
    ensures r.ReadOutput? ==> r.output == Output(d.logicalId, d.found.content) && left == budget - |d.found.content| && left >= 0
    ensures !r.ReadOutput? ==> left == budget
  {
    left := budget;
    match d.found
    case Missing =>
      r := if d.required then ReadError else NoOutput;
    case Refused =>
      r := ReadError;
    case Regular(content) =>
      if |content| > budget {
        r := ReadError;
      } else {
        left := budget - |content|;
        r := ReadOutput(Output(d.logicalId, content));
      }
  }

  predicate Obtainable(d: Declaration) {
    d.found.Regular? || (d.found.Missing? && !d.required)
  }

  /** The outputs of a list of declarations, in order. */
  function Present(ds: seq<Declaration>): seq<Output> {
    if ds == [] then []
    else
      var last := ds[|ds| - 1];
      Present(ds[..|ds| - 1]) + (if last.found.Regular? then [Output(last.logicalId, last.found.content)] else [])
  }

  function TotalBytes(outputs: seq<Output>): nat {
    if outputs == [] then 0 else TotalBytes(outputs[..|outputs| - 1]) + |outputs[|outputs| - 1].content|
  }

  lemma PresentGrows(ds: seq<Declaration>, i: nat)
    requires i < |ds|
    ensures Present(ds[..i + 1])
         == Present(ds[..i]) + (if ds[i].found.Regular? then [Output(ds[i].logicalId, ds[i].found.content)] else [])
  {
    assert ds[..i + 1][..i] == ds[..i];
  }

  lemma TotalBytesAppend(outputs: seq<Output>, o: Output)
    ensures TotalBytes(outputs + [o]) == TotalBytes(outputs) + |o.content|
  {
    assert (outputs + [o])[..|outputs|] == outputs;
  }

  lemma {:induction false} PrefixFits(ds: seq<Declaration>, i: nat)
    requires i <= |ds|
    ensures TotalBytes(Present(ds[..i])) <= TotalBytes(Present(ds))
    ensures Present(ds[..i]) != [] ==> Present(ds) != []
    decreases |ds| - i
  {
    if i == |ds| {
      assert ds[..i] == ds;
    } else {
      PresentGrows(ds, i);
      assert Present(ds[..i]) + [] == Present(ds[..i]);
      if ds[i].found.Regular? {
        TotalBytesAppend(Present(ds[..i]), Output(ds[i].logicalId, ds[i].found.content));
      }
      PrefixFits(ds, i + 1);
    }
  }

  /** The declarations can be collected within a budget: each on its own, and together if there is anything to report. */
  predicate Collectable(ds: seq<Declaration>, budget: int) {
    && (forall i | 0 <= i < |ds| :: Obtainable(ds[i]))
    && (Present(ds) == [] || TotalBytes(Present(ds)) <= budget)
  }

  /** A declaration that cannot be read, or not within what is left, spoils the whole collection. */
  lemma CollectionStops(ds: seq<Declaration>, i: nat, budget: int)
    requires i < |ds|
    requires !Obtainable(ds[i]) || (ds[i].found.Regular? && TotalBytes(Present(ds[..i])) + |ds[i].found.content| > budget)
    ensures !Collectable(ds, budget)
  {
    if Obtainable(ds[i]) {
      PresentGrows(ds, i);
      TotalBytesAppend(Present(ds[..i]), Output(ds[i].logicalId, ds[i].found.content));
      PrefixFits(ds, i + 1);
    }
  }

  /** The collection loop of `execute`: it succeeds exactly when the declarations are collectable, and then reports
      every present output in order, with the bytes they used gone from the budget. */
  method CollectOutputs(ds: seq<Declaration>, budget: int) returns (r: Option<seq<Output>>)
    ensures r.Some? <==> Collectable(ds, budget)
    ensures r.Some? ==> r.value == Present(ds)
  {
    var outputs: seq<Output> := [];
    var left := budget;
    for index := 0 to |ds|
      invariant outputs == Present(ds[..index])
      invariant left == budget - TotalBytes(outputs)
      invariant outputs != [] ==> left >= 0
      invariant forall i | 0 <= i < index :: Obtainable(ds[i])
    {
      PresentGrows(ds, index);
      var read;
      read, left := ReadDeclared(ds[index], left);
      if read.ReadError? {
        CollectionStops(ds, index, budget);
        return None;
      }
      if read.ReadOutput? {
        TotalBytesAppend(outputs, read.output);
        outputs := outputs + [read.output];
      }
    }
    assert ds[..|ds|] == ds;
    r := Some(outputs);
  }

  // ---------------------------------------------------------------------------
  // One result

  const MINIMUM_STREAM: nat := 4096

  function StreamLimit(outputLimit: nat): nat {
    if outputLimit / 4 < MINIMUM_STREAM then MINIMUM_STREAM else outputLimit / 4
  }

  /** A stream may use a quarter of the output limit, rounded down, and never less than 4096 bytes. */
  lemma StreamShare(outputLimit: nat)
    ensures 4 * StreamLimit(outputLimit) + 3 >= outputLimit && StreamLimit(outputLimit) >= 4096
    ensures StreamLimit(outputLimit) == 4096 || 4 * StreamLimit(outputLimit) <= outputLimit
  {
  }

  /** Everything a result carries, from what the process wrote and left behind; outputs are collected only for a
      completed process, with what the streams left of the limit. */
  method CaptureResult(outputLimit: nat, stdoutWrites: seq<Bytes>, stderrWrites: seq<Bytes>, exitedCleanly: bool,
                       ds: seq<Declaration>)
    returns (stdout: Bytes, stderr: Bytes, completed: bool, outputs: seq<Output>)
    ensures stdout == Concat(stdoutWrites)[..Min(|Concat(stdoutWrites)|, StreamLimit(outputLimit))]
    ensures stderr == Concat(stderrWrites)[..Min(|Concat(stderrWrites)|, StreamLimit(outputLimit))]
    ensures completed <==> && exitedCleanly
                           && |Concat(stdoutWrites)| <= StreamLimit(outputLimit)
                           && |Concat(stderrWrites)| <= StreamLimit(outputLimit)
                           && Collectable(ds, outputLimit - |stdout| - |stderr|)
    ensures outputs == if completed then Present(ds) else []
    ensures |stdout| + |stderr| + TotalBytes(outputs) <= if outputLimit >= 8192 then outputLimit else 8192
    ensures outputs != [] ==> |stdout| + |stderr| + TotalBytes(outputs) <= outputLimit
  {
    var limit := StreamLimit(outputLimit);
    var out := CaptureStream(limit, stdoutWrites);
    var err := CaptureStream(limit, stderrWrites);
    stdout, stderr, completed, outputs := out.buffer, err.buffer, false, [];
    if exitedCleanly && !out.overflow && !err.overflow {
      var collected := CollectOutputs(ds, outputLimit - |stdout| - |stderr|);
      if collected.Some? {
        completed, outputs := true, collected.value;
      }
    }
  }

  method CaptureStream(limit: nat, writes: seq<Bytes>) returns (c: Capture)
    ensures c.limit == limit && Captures(c, Concat(writes))
  {
    var writer := new BoundedBuffer(limit);
    ghost var start := writer.View();
    for i := 0 to |writes|
      invariant writer.limit == limit
      invariant WrittenAll(writer.View(), writes[i..]) == WrittenAll(start, writes)
    {
      assert writes[i..][0] == writes[i] && writes[i..][1..] == writes[i + 1..];
      var n := writer.Write(writes[i]);
    }
    c := Capture(writer.buffer, writer.limit, writer.overflow);
    CaptureIsPrefix(start, [], writes);
    assert [] + Concat(writes) == Concat(writes);
  }

  // ---------------------------------------------------------------------------
  // The frame of a result

  /** The length of a blob's base64 text. */
  function Base64Length(n: nat): nat {
    (n + 2) / 3 * 4
  }

  function EncodedOutputs(outputs: seq<Output>): nat {
    if outputs == [] then 0 else EncodedOutputs(outputs[..|outputs| - 1]) + Base64Length(|outputs[|outputs| - 1].content|)
  }

  /** The length of a result's frame; `envelope` is what surrounds the base64 texts. */
  function FrameBytes(envelope: nat, stdout: Bytes, stderr: Bytes, outputs: seq<Output>): nat {
    envelope + Base64Length(|stdout|) + Base64Length(|stderr|) + EncodedOutputs(outputs)
  }

  lemma {:induction false} EncodedBounds(outputs: seq<Output>)
    ensures 4 * TotalBytes(outputs) <= 3 * EncodedOutputs(outputs) <= 4 * TotalBytes(outputs) + 8 * |outputs|
  {
    if outputs != [] {
      EncodedBounds(outputs[..|outputs| - 1]);
    }
  }

  /** A result of more than three quarters of the frame limit never fits a frame; one that stays below by its envelope
      and eight thirds of a byte for each blob always does. */
  lemma FrameFits(envelope: nat, stdout: Bytes, stderr: Bytes, outputs: seq<Output>)
    ensures var total := |stdout| + |stderr| + TotalBytes(outputs);
            && (4 * total > 3 * FRAME_LIMIT ==> FrameBytes(envelope, stdout, stderr, outputs) > FRAME_LIMIT)
            && (4 * total + 8 * (|outputs| + 2) + 3 * envelope <= 3 * FRAME_LIMIT ==>
                  FrameBytes(envelope, stdout, stderr, outputs) <= FRAME_LIMIT)
  {
    EncodedBounds(outputs);
  }

  /** A launch may ask for an output limit at which a complete result cannot be delivered. */
  lemma CollectableButOversized(d: Declaration, envelope: nat)
    requires d.found.Regular? && 3 * (FRAME_LIMIT / 4) < |d.found.content| <= FRAME_LIMIT
    ensures Collectable([d], FRAME_LIMIT)
    ensures FrameBytes(envelope, [], [], Present([d])) > FRAME_LIMIT
  {
    var o := Output(d.logicalId, d.found.content);
    assert [d][..0] == [];
    assert Present([d]) == [o];
    TotalBytesAppend([], o);
    assert [] + [o] == [o];
    FrameFits(envelope, [], [], [o]);
  }
}

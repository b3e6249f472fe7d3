/**
 Wide-range Modbus reads: a range of addresses is read in chunks, the chunks are joined
 and regrouped into values, and each value gets the key of its address
 (`novena_gateway/connectors/modbus/utils.py`, `modbus_connector.py`,
 `bytes_modbus_uplink_converter.py`).  Reads are function codes 3 and 4 (sections 6.3 and
 6.4 of the MODBUS Application Protocol Specification V1.1b3).

 `memory` gives the device's registers; `answers` says how it answered the requests, up to
 the first timeout: validly, with all or fewer of the registers asked for, or not.  `decode` turns one group of registers into a value, or, as for
 an unknown type or an enum without a value, nothing, or it raises.
 */
module ModbusRanges {
  import opened Common
  import opened ModbusDecode

  type Memory = int -> Register

  datatype Response = Registers(values: seq<Register>) | Invalid

  datatype Decoding<T> = Datum(value: T) | Nothing | Raised

  /** A datapoint: the address in its key, and its value. */
  datatype Point<T> = Point(address: int, value: T)

  function Read(memory: Memory, start: int, count: nat): (registers: seq<Register>)
    ensures |registers| == count && forall i :: 0 <= i < count ==> registers[i] == memory(start + i)
  {
    if count == 0 then [] else Read(memory, start, count - 1) + [memory(start + count - 1)]
  }

  /** Reading in one go or in two. */
  lemma ReadSplits(memory: Memory, start: int, n: nat, count: nat)
    requires n <= count
    ensures Read(memory, start, count) == Read(memory, start, n) + Read(memory, start + n, count - n)
  {
    hide Read;
    forall i | 0 <= i < count
      ensures Read(memory, start, count)[i] == (Read(memory, start, n) + Read(memory, start + n, count - n))[i]
    {
      assert start + i == start + n + (i - n);
    }
  }

  // ---------------------------------------------------------------- chunking

  /** The requests for `count` registers from `start`, each as large as allowed. */
  function Chunks(start: int, count: nat, max: nat): seq<(int, nat)>
    requires max >= 1
    decreases count
  {
    if count <= max then [(start, count)] else [(start, max)] + Chunks(start + max, count - max, max)
  }

  /** The gateway's loop; an empty range is an error. */
  method ParseWideRange(start: int, end: int, objectsCount: int, max: int) returns (ranges: Option<seq<(int, nat)>>)
    requires max >= 1 || end - start + objectsCount <= 0
    ensures ranges == if end - start + objectsCount <= 0 then None
                      else Some(Chunks(start, end - start + objectsCount, max))
  {
    var registers := end - start + objectsCount;
    if registers <= 0 { return None; }
    if registers <= max { return Some([(start, registers)]); }
    var result: seq<(int, nat)> := [];
    var address, remaining: nat := start, registers;
    while remaining > 0
      invariant 0 <= remaining <= registers
      invariant if remaining > 0 then result + Chunks(address, remaining, max) == Chunks(start, registers, max)
                else result == Chunks(start, registers, max)
    {
      var chunk := if max < remaining then max else remaining;
      result := result + [(address, chunk)];
      address, remaining := address + chunk, remaining - chunk;
    }
    return Some(result);
  }

  /** With a limit below one the loop's remaining count never falls, so that it never ends. */
  lemma NoProgressBelowOne(max: int, remaining: int)
    ensures max < 1 && remaining > 0 <==> remaining > 0 && remaining - Min(max, remaining) >= remaining
  {
  }

  /** Requests that lie end to end from `start` and cover `count` registers. */
  ghost predicate Tiles(ranges: seq<(int, nat)>, start: int, count: nat, max: nat) {
    if ranges == [] then count == 0
    else
      && ranges[0].0 == start && 1 <= ranges[0].1 <= max && ranges[0].1 <= count
      && Tiles(ranges[1..], start + ranges[0].1, count - ranges[0].1, max)
  }

  /** The requests are contiguous, each within 1..max, and cover exactly the registers asked for. */
  lemma {:induction false} ChunksTile(start: int, count: nat, max: nat)
    requires max >= 1 && count >= 1
    ensures Tiles(Chunks(start, count, max), start, count, max)
    decreases count
  {
    var ranges := Chunks(start, count, max);
    if count <= max {
      assert ranges[1..] == [];
    } else {
      ChunksTile(start + max, count - max, max);
      assert ranges[1..] == Chunks(start + max, count - max, max);
    }
  }

  /** All requests but the last are as large as allowed. */
  lemma {:induction false} ChunksAreFull(start: int, count: nat, max: nat)
    requires max >= 1
    ensures var ranges := Chunks(start, count, max);
            && ranges != [] && (forall i :: 0 <= i < |ranges| - 1 ==> ranges[i] == (start + i * max, max))
            && ranges[|ranges| - 1].1 <= max
    decreases count
  {
    if count > max {
      ChunksAreFull(start + max, count - max, max);
      var ranges, rest := Chunks(start, count, max), Chunks(start + max, count - max, max);
      forall i | 0 <= i < |ranges| - 1 ensures ranges[i] == (start + i * max, max) {
        if i > 0 {
          assert ranges[i] == rest[i - 1];
          assert start + max + (i - 1) * max == start + i * max;
        }
      }
    }
  }

  // ---------------------------------------------------------------- reading and joining

  datatype Answer = Valid(count: nat) | Refused

  function Brought(a: Answer): nat { if a.Valid? then a.count else 0 }

  /** There is at most one answer per request, and none brings more registers than were asked for. */
  predicate Fitting(ranges: seq<(int, nat)>, answers: seq<Answer>) {
    |answers| <= |ranges| && forall i :: 0 <= i < |answers| ==> Brought(answers[i]) <= ranges[i].1
  }

  /** What the read loop collects: one response per answer; a timeout ends it early. */
  function Responses(memory: Memory, ranges: seq<(int, nat)>, answers: seq<Answer>): seq<Response>
    requires |answers| <= |ranges|
  {
    if answers == [] then []
    else [ResponseTo(memory, ranges[0], answers[0])] + Responses(memory, ranges[1..], answers[1..])
  }

  function Joined(responses: seq<Response>): seq<Register> {
    if responses == [] then []
    else (if responses[0].Registers? then responses[0].values else []) + Joined(responses[1..])
  }

  function ResponseTo(memory: Memory, range: (int, nat), answer: Answer): Response {
    if answer.Valid? then Registers(Read(memory, range.0, answer.count)) else Invalid
  }

  lemma ResponsesStep(memory: Memory, ranges: seq<(int, nat)>, answers: seq<Answer>, i: nat, responses: seq<Response>)
    requires i < |answers| <= |ranges|
    ensures responses + Responses(memory, ranges[i..], answers[i..])
         == (responses + [ResponseTo(memory, ranges[i], answers[i])]) + Responses(memory, ranges[i + 1..], answers[i + 1..])
  {
    hide Read;
    assert ranges[i..][1..] == ranges[i + 1..] && answers[i..][1..] == answers[i + 1..];
    assert ranges[i..][0] == ranges[i] && answers[i..][0] == answers[i];
  }

  method ReadRanges(memory: Memory, ranges: seq<(int, nat)>, answers: seq<Answer>) returns (responses: seq<Response>)
    requires |answers| <= |ranges|
    ensures responses == Responses(memory, ranges, answers)
  {
    responses := [];
    assert ranges[0..] == ranges && answers[0..] == answers;
    for i := 0 to |answers|
      invariant responses + Responses(memory, ranges[i..], answers[i..]) == Responses(memory, ranges, answers)
    {
      hide Responses, ResponseTo;
      ResponsesStep(memory, ranges, answers, i, responses);
      responses := responses + [ResponseTo(memory, ranges[i], answers[i])];
    }
  }

  /** Invalid chunks are skipped, the others are put one after the other. */
  method JoinChunks(responses: seq<Response>) returns (registers: seq<Register>)
    ensures registers == Joined(responses)
  {
    registers := [];
    for i := 0 to |responses|
      invariant registers + Joined(responses[i..]) == Joined(responses)
    {
      assert responses[i..][1..] == responses[i + 1..];
      if responses[i].Registers? { registers := registers + responses[i].values; }
    }
  }

  /** How many registers the answers bring. */
  function Covered(ranges: seq<(int, nat)>, answers: seq<Answer>): nat
    requires |answers| <= |ranges|
  {
    if answers == [] then 0 else Brought(answers[0]) + Covered(ranges[1..], answers[1..])
  }

  /** Nothing comes behind a request that did not bring all its registers. */
  predicate NoGap(ranges: seq<(int, nat)>, answers: seq<Answer>)
    requires |answers| <= |ranges|
  {
    forall i, j :: 0 <= i < j < |answers| && Brought(answers[j]) > 0 ==> Brought(answers[i]) == ranges[i].1
  }

  predicate AllEmpty(answers: seq<Answer>) { forall i :: 0 <= i < |answers| ==> Brought(answers[i]) == 0 }

  lemma NoGapAhead(ranges: seq<(int, nat)>, answers: seq<Answer>)
    requires answers != [] && |answers| <= |ranges|
    ensures Brought(answers[0]) == ranges[0].1 ==> (NoGap(ranges, answers) <==> NoGap(ranges[1..], answers[1..]))
    ensures Brought(answers[0]) != ranges[0].1 ==> (NoGap(ranges, answers) <==> AllEmpty(answers[1..]))
  {
    hide Brought;
    var rest := answers[1..];
    assert forall i :: 0 < i < |answers| ==> answers[i] == rest[i - 1] && ranges[i] == ranges[1..][i - 1];
    if Brought(answers[0]) != ranges[0].1 && NoGap(ranges, answers) {
      forall i | 0 <= i < |rest| ensures Brought(rest[i]) == 0 { assert answers[i + 1] == rest[i]; }
    }
    if Brought(answers[0]) != ranges[0].1 && AllEmpty(rest) {
      forall j | 0 < j < |answers| ensures Brought(answers[j]) == 0 { assert answers[j] == rest[j - 1]; }
    }
    if NoGap(ranges, answers) {
      forall i, j | 0 <= i < j < |rest| && Brought(rest[j]) > 0 ensures Brought(rest[i]) == ranges[1..][i].1 {
        assert answers[i + 1] == rest[i] && answers[j + 1] == rest[j];
      }
    }
  }

  lemma FittingAhead(ranges: seq<(int, nat)>, answers: seq<Answer>)
    requires answers != [] && Fitting(ranges, answers)
    ensures Fitting(ranges[1..], answers[1..])
  {
    forall i | 0 <= i < |answers[1..]| ensures Brought(answers[1..][i]) <= ranges[1..][i].1 {
      assert answers[1..][i] == answers[i + 1] && ranges[1..][i] == ranges[i + 1];
    }
  }

  /** Responses in front and behind. */
  lemma JoinedSplits(memory: Memory, ranges: seq<(int, nat)>, answers: seq<Answer>)
    requires answers != [] && |answers| <= |ranges|
    ensures Joined(Responses(memory, ranges, answers))
         == Read(memory, ranges[0].0, Brought(answers[0])) + Joined(Responses(memory, ranges[1..], answers[1..]))
  {
    var all := Responses(memory, ranges, answers);
    assert all[1..] == Responses(memory, ranges[1..], answers[1..]);
    assert Read(memory, ranges[0].0, 0) == [];
  }

  lemma {:induction false} NothingJoined(memory: Memory, ranges: seq<(int, nat)>, answers: seq<Answer>)
    requires |answers| <= |ranges| && AllEmpty(answers)
    ensures Joined(Responses(memory, ranges, answers)) == [] && Covered(ranges, answers) == 0
  {
    if answers != [] {
      JoinedSplits(memory, ranges, answers);
      NothingJoined(memory, ranges[1..], answers[1..]);
    }
  }

  /** Every request was answered with all its registers. */
  predicate FullyAnswered(ranges: seq<(int, nat)>, answers: seq<Answer>) {
    |answers| == |ranges| && forall i :: 0 <= i < |answers| ==> answers[i] == Valid(ranges[i].1)
  }

  lemma FullyAhead(ranges: seq<(int, nat)>, answers: seq<Answer>)
    requires answers != [] && FullyAnswered(ranges, answers)
    ensures FullyAnswered(ranges[1..], answers[1..])
  {
    forall i | 0 <= i < |answers[1..]| ensures answers[1..][i] == Valid(ranges[1..][i].1) {
      assert answers[1..][i] == answers[i + 1] && ranges[1..][i] == ranges[i + 1];
    }
  }

  /** Without a gap the joined registers are the first ones of the range. */
  lemma {:induction false} TilesJoin(memory: Memory, ranges: seq<(int, nat)>, answers: seq<Answer>, start: int, count: nat, max: nat)
    requires Tiles(ranges, start, count, max) && Fitting(ranges, answers) && NoGap(ranges, answers)
    ensures Covered(ranges, answers) <= count
    ensures Joined(Responses(memory, ranges, answers)) == Read(memory, start, Covered(ranges, answers))
    decreases |answers|
  {
    hide Read, Brought, NoGap, Responses, Joined;
    if answers == [] {
      NothingAnswered(memory, ranges, start);
    } else {
      var n := ranges[0].1;
      JoinedSplits(memory, ranges, answers);
      NoGapAhead(ranges, answers);
      FirstFits(ranges, answers);
      if Brought(answers[0]) == n {
        FittingAhead(ranges, answers);
        TilesJoin(memory, ranges[1..], answers[1..], start + n, count - n, max);
        ReadSplits(memory, start, n, Covered(ranges, answers));
      } else {
        NothingJoined(memory, ranges[1..], answers[1..]);
      }
    }
  }

  lemma FirstFits(ranges: seq<(int, nat)>, answers: seq<Answer>)
    requires answers != [] && Fitting(ranges, answers)
    ensures Brought(answers[0]) <= ranges[0].1
  {
  }

  lemma NothingAnswered(memory: Memory, ranges: seq<(int, nat)>, start: int)
    ensures Joined(Responses(memory, ranges, [])) == Read(memory, start, 0)
  {
  }

  /** When every request is answered in full, all registers of the range come back. */
  lemma {:induction false} FullAnswersCover(ranges: seq<(int, nat)>, answers: seq<Answer>, start: int, count: nat, max: nat)
    requires Tiles(ranges, start, count, max) && FullyAnswered(ranges, answers)
    ensures Fitting(ranges, answers) && NoGap(ranges, answers) && Covered(ranges, answers) == count
    decreases |answers|
  {
    if answers != [] {
      FullyAhead(ranges, answers);
      FullAnswersCover(ranges[1..], answers[1..], start + ranges[0].1, count - ranges[0].1, max);
    }
  }

  /** One register differs from all others. */
  function Spike(x: int): Memory { a => if a == x then 1 else 0 }

  /** The first register that comes back is that of the first answer that brings one. */
  lemma {:induction false} FirstValid(ranges: seq<(int, nat)>, answers: seq<Answer>, start: int, count: nat, max: nat) returns (x: int)
    requires Tiles(ranges, start, count, max) && |answers| <= |ranges| && !AllEmpty(answers)
    ensures x >= start
    ensures forall memory: Memory {:trigger Responses(memory, ranges, answers)} ::
              var joined := Joined(Responses(memory, ranges, answers)); joined != [] && joined[0] == memory(x)
    decreases |answers|
  {
    hide Read, Brought, Joined, Responses;
    var n := ranges[0].1;
    if Brought(answers[0]) > 0 {
      x := start;
    } else {
      var i :| 0 <= i < |answers| && Brought(answers[i]) != 0;
      assert answers[1..][i - 1] == answers[i];
      x := FirstValid(ranges[1..], answers[1..], start + n, count - n, max);
    }
    forall memory: Memory
      ensures var joined := Joined(Responses(memory, ranges, answers)); joined != [] && joined[0] == memory(x)
    {
      JoinedSplits(memory, ranges, answers);
    }
  }

  /** The joined registers are some first registers of the range. */
  ghost predicate InPlace(memory: Memory, ranges: seq<(int, nat)>, answers: seq<Answer>, start: int)
    requires |answers| <= |ranges|
  {
    Joined(Responses(memory, ranges, answers)) == Read(memory, start, |Joined(Responses(memory, ranges, answers))|)
  }

  lemma {:induction false} GapShows(ranges: seq<(int, nat)>, answers: seq<Answer>, start: int, count: nat, max: nat) returns (x: int)
    requires Tiles(ranges, start, count, max) && Fitting(ranges, answers) && !NoGap(ranges, answers)
    ensures !InPlace(Spike(x), ranges, answers, start)
    decreases |answers|
  {
    hide Read, Joined, Responses, Brought, NoGap;
    EmptyHasNoGap(ranges, answers);
    NoGapAhead(ranges, answers);
    FirstFits(ranges, answers);
    var n, b := ranges[0].1, Brought(answers[0]);
    if b == n {
      FittingAhead(ranges, answers);
      x := GapShows(ranges[1..], answers[1..], start + n, count - n, max);
    } else {
      x := FirstValid(ranges[1..], answers[1..], start + n, count - n, max);
    }
    var memory := Spike(x);
    JoinedSplits(memory, ranges, answers);
    var all, rest := Joined(Responses(memory, ranges, answers)), Joined(Responses(memory, ranges[1..], answers[1..]));
    ReadSplits(memory, start, b, |all|);
    assert all[b..] == rest && Read(memory, start, |all|)[b..] == Read(memory, start + b, |rest|);
  }

  lemma EmptyHasNoGap(ranges: seq<(int, nat)>, answers: seq<Answer>)
    requires |answers| <= |ranges|
    ensures answers == [] ==> NoGap(ranges, answers)
  {
  }

  /**
   Registers that come back keep their place for every device if and only if nothing comes
   behind a request that was refused or answered short: what is missing shifts all
   registers behind it.
   */
  lemma MissingRegistersShiftExactly(ranges: seq<(int, nat)>, answers: seq<Answer>, start: int, count: nat, max: nat)
    requires Tiles(ranges, start, count, max) && Fitting(ranges, answers)
    ensures (forall memory: Memory :: InPlace(memory, ranges, answers, start)) <==> NoGap(ranges, answers)
  {
    hide Read, NoGap, Joined, Responses;
    if NoGap(ranges, answers) {
      forall memory: Memory ensures InPlace(memory, ranges, answers, start) {
        TilesJoin(memory, ranges, answers, start, count, max);
      }
    } else {
      var x := GapShows(ranges, answers, start, count, max);
    }
  }

  // ---------------------------------------------------------------- regrouping

  /** The groups of `size` registers, decoded; the last group may be shorter. */
  function Decodings<T>(decode: seq<Register> -> Decoding<T>, registers: seq<Register>, size: nat): seq<Decoding<T>>
    requires size >= 1
    decreases |registers|
  {
    if registers == [] then []
    else
      var n := Min(size, |registers|);
      [decode(registers[..n])] + Decodings(decode, registers[n..], size)
  }

  /** Values keyed by a counter that stands still on nothing, as the converter keeps it. */
  function Drifting<T>(values: seq<Decoding<T>>, address: int, size: nat): seq<Point<T>> {
    if values == [] then []
    else if values[0].Datum? then [Point(address, values[0].value)] + Drifting(values[1..], address + size, size)
    else Drifting(values[1..], address, size)
  }

  /** Values keyed by their own addresses, as single-address reads key them. */
  function OneByOne<T>(values: seq<Decoding<T>>, address: int, size: nat): seq<Point<T>> {
    if values == [] then []
    else (if values[0].Datum? then [Point(address, values[0].value)] else [])
         + OneByOne(values[1..], address + size, size)
  }

  predicate Raises<T>(values: seq<Decoding<T>>) { exists i :: 0 <= i < |values| && values[i].Raised? }

  /** The converter's result: a group whose decoding raises loses them all. */
  function Converted<T>(values: seq<Decoding<T>>, address: int, size: nat): Option<seq<Point<T>>> {
    if Raises(values) then None else Some(Drifting(values, address, size))
  }

  /** One group, decoded, in front of what the rest of the registers give. */
  lemma DecodingsStep<T>(decode: seq<Register> -> Decoding<T>, registers: seq<Register>, i: nat, size: nat)
    requires size >= 1 && i < |registers|
    ensures var n := Min(size, |registers| - i);
            Decodings(decode, registers[i..], size) == [decode(registers[i..i + n])] + Decodings(decode, registers[i + n..], size)
  {
    var n := Min(size, |registers| - i);
    assert registers[i..][..n] == registers[i..i + n] && registers[i..][n..] == registers[i + n..];
  }

  lemma RaisesStep<T>(value: Decoding<T>, rest: seq<Decoding<T>>)
    ensures Raises([value] + rest) <==> value.Raised? || Raises(rest)
  {
    var all := [value] + rest;
    assert all[0] == value && forall i :: 0 <= i < |rest| ==> all[i + 1] == rest[i];
  }

  lemma DriftingStep<T>(value: Decoding<T>, rest: seq<Decoding<T>>, address: int, size: nat)
    ensures Drifting([value] + rest, address, size) ==
            if value.Datum? then [Point(address, value.value)] + Drifting(rest, address + size, size)
            else Drifting(rest, address, size)
  {
    assert ([value] + rest)[1..] == rest;
  }

  lemma NothingToDecode<T>(decode: seq<Register> -> Decoding<T>, registers: seq<Register>, address: int, size: nat)
    requires size >= 1 && registers == []
    ensures var values := Decodings(decode, registers, size); !Raises(values) && Drifting(values, address, size) == []
  {
  }

  method Regroup<T>(decode: seq<Register> -> Decoding<T>, registers: seq<Register>, size: nat, start: int)
    returns (points: Option<seq<Point<T>>>)
    requires size >= 1
    ensures points == Converted(Decodings(decode, registers, size), start, size)
  {
    hide Decodings, Drifting, Raises;
    ghost var values := Decodings(decode, registers, size);
    assert registers[0..] == registers;
    var result: seq<Point<T>> := [];
    var address, i := start, 0;
    while i < |registers|
      invariant 0 <= i <= |registers|
      invariant Raises(values) <==> Raises(Decodings(decode, registers[i..], size))
      invariant result + Drifting(Decodings(decode, registers[i..], size), address, size) == Drifting(values, start, size)
    {
      var n := Min(size, |registers| - i);
      var value := decode(registers[i..i + n]);
      DecodingsStep(decode, registers, i, size);
      RaisesStep(value, Decodings(decode, registers[i + n..], size));
      DriftingStep(value, Decodings(decode, registers[i + n..], size), address, size);
      if value.Raised? { return None; }
      if value.Datum? {
        result := result + [Point(address, value.value)];
        address := address + size;
      }
      i := i + n;
    }
    NothingToDecode(decode, registers[i..], address, size);
    assert result + [] == result;
    return Some(result);
  }

  /** One read per address over the range, each of the registers of its own value. */
  function Singles<T>(decode: seq<Register> -> Decoding<T>, memory: Memory, start: int, size: nat, count: nat): seq<Decoding<T>>
    requires size >= 1
    decreases count
  {
    if count == 0 then []
    else
      var n := Min(size, count);
      [decode(Read(memory, start, n))] + Singles(decode, memory, start + n, size, count - n)
  }

  /** Regrouping what was read together decodes what single reads would. */
  lemma {:induction false} RegroupedValues<T>(decode: seq<Register> -> Decoding<T>, memory: Memory, start: int, size: nat, count: nat)
    requires size >= 1
    ensures Decodings(decode, Read(memory, start, count), size) == Singles(decode, memory, start, size, count)
    decreases count
  {
    hide Read;
    if count > 0 {
      var n := Min(size, count);
      ReadSplits(memory, start, n, count);
      var registers := Read(memory, start, count);
      assert registers[..n] == Read(memory, start, n) && registers[n..] == Read(memory, start + n, count - n);
      RegroupedValues(decode, memory, start + n, size, count - n);
    }
  }

  /** Nothing stands in front of a value. */
  predicate NoHole<T>(values: seq<Decoding<T>>) {
    forall i, j :: 0 <= i < j < |values| && values[j].Datum? ==> values[i].Datum?
  }

  lemma {:induction false} AddressesGrow<T>(values: seq<Decoding<T>>, address: int, size: nat)
    ensures OneByOne(values, address, size) != [] ==> OneByOne(values, address, size)[0].address >= address
    ensures Drifting(values, address, size) != [] ==> Drifting(values, address, size)[0].address == address
    ensures OneByOne(values, address, size) == [] <==> forall i :: 0 <= i < |values| ==> !values[i].Datum?
    ensures Drifting(values, address, size) == [] <==> forall i :: 0 <= i < |values| ==> !values[i].Datum?
  {
    if values != [] {
      AddressesGrow(values[1..], address, size);
      AddressesGrow(values[1..], address + size, size);
      assert forall i :: 0 < i < |values| ==> values[i] == values[1..][i - 1];
    }
  }

  lemma NoHoleAhead<T>(values: seq<Decoding<T>>)
    requires values != []
    ensures values[0].Datum? ==> (NoHole(values) <==> NoHole(values[1..]))
    ensures !values[0].Datum? ==> (NoHole(values) <==> forall i :: 0 <= i < |values[1..]| ==> !values[1..][i].Datum?)
  {
    assert forall i :: 0 < i < |values| ==> values[i] == values[1..][i - 1];
    if !values[0].Datum? && NoHole(values) {
      forall i | 0 <= i < |values[1..]| ensures !values[1..][i].Datum? { assert values[i + 1] == values[1..][i]; }
    }
  }

  lemma DriftingHead<T>(values: seq<Decoding<T>>, address: int, size: nat)
    requires values != []
    ensures !values[0].Datum? ==> Drifting(values, address, size) == Drifting(values[1..], address, size)
    ensures !values[0].Datum? ==> OneByOne(values, address, size) == OneByOne(values[1..], address + size, size)
    ensures values[0].Datum? ==>
              var head := [Point(address, values[0].value)];
              && Drifting(values, address, size) == head + Drifting(values[1..], address + size, size)
              && OneByOne(values, address, size) == head + OneByOne(values[1..], address + size, size)
  {
    assert [] + OneByOne(values[1..], address + size, size) == OneByOne(values[1..], address + size, size);
  }

  /** Keys drift away from the addresses exactly when a hole precedes a value. */
  lemma {:induction false} DriftIsHole<T>(values: seq<Decoding<T>>, address: int, size: nat)
    requires size >= 1
    ensures Drifting(values, address, size) == OneByOne(values, address, size) <==> NoHole(values)
  {
    hide NoHole, Drifting, OneByOne;
    if values == [] {
      NothingToKey(values, address, size);
    } else {
      var tail := values[1..];
      NoHoleAhead(values);
      DriftingHead(values, address, size);
      if values[0].Datum? {
        var rest, exact := Drifting(tail, address + size, size), OneByOne(tail, address + size, size);
        DriftIsHole(tail, address + size, size);
        var head := [Point(address, values[0].value)];
        assert (head + rest)[1..] == rest && (head + exact)[1..] == exact;
      } else {
        AddressesGrow(tail, address, size);
        AddressesGrow(tail, address + size, size);
      }
    }
  }

  lemma NothingToKey<T>(values: seq<Decoding<T>>, address: int, size: nat)
    requires values == []
    ensures Drifting(values, address, size) == OneByOne(values, address, size) && NoHole(values)
  {
  }

  // ---------------------------------------------------------------- the whole read

  /**
   A wide-range read, for every range, chunk limit and way in which the device answers:
   when nothing comes behind a request that was refused or answered short, the datapoints
   are those of one read per address over the registers that came back, even where a chunk
   cuts a value in two, if and only if no value is missing in front of another one.
   */
  method ReadWideRange<T>(memory: Memory, decode: seq<Register> -> Decoding<T>, start: int, end: int, size: nat, max: nat, answers: seq<Answer>)
    returns (points: Option<seq<Point<T>>>)
    requires size >= 1 && max >= 1
    requires end - start + size > 0 ==> Fitting(Chunks(start, end - start + size, max), answers)
    ensures end - start + size <= 0 ==> points == None
    ensures end - start + size > 0 ==>
              var ranges := Chunks(start, end - start + size, max);
              points == Converted(Decodings(decode, Joined(Responses(memory, ranges, answers)), size), start, size)
    ensures end - start + size > 0 && NoGap(Chunks(start, end - start + size, max), answers) ==>
              var count := Covered(Chunks(start, end - start + size, max), answers);
              var values := Singles(decode, memory, start, size, count);
              && (points.None? <==> Raises(values))
              && (points.Some? ==> (points.value == OneByOne(values, start, size) <==> NoHole(values)))
  {
    hide Read, Drifting, OneByOne, NoGap, NoHole, Singles, Decodings, Covered, Responses, Joined;
    var ranges := ParseWideRange(start, end, size, max);
    if ranges.None? { return None; }
    var responses := ReadRanges(memory, ranges.value, answers);
    var registers := JoinChunks(responses);
    points := Regroup(decode, registers, size, start);
    ChunksTile(start, end - start + size, max);
    if NoGap(ranges.value, answers) {
      TilesJoin(memory, ranges.value, answers, start, end - start + size, max);
      var count := Covered(ranges.value, answers);
      RegroupedValues(decode, memory, start, size, count);
      DriftIsHole(Singles(decode, memory, start, size, count), start, size);
    }
  }

  // ---------------------------------------------------------------- integers

  /** The telemetry decoder for an integer type: too few registers raise. */
  function IntegerDecoder(t: Kind, byteOrder: Order, wordOrder: Order): seq<Register> -> Decoding<int> {
    registers => if t.words <= |registers| then Datum(Telemetry(registers, t, byteOrder, wordOrder)) else Raised
  }

  /** The integers of `n` single reads, each under its own address. */
  function Integers(memory: Memory, start: int, t: Kind, byteOrder: Order, wordOrder: Order, n: nat): seq<Point<int>>
    decreases n
  {
    if n == 0 then []
    else [Point(start, Telemetry(Read(memory, start, t.words), t, byteOrder, wordOrder))]
         + Integers(memory, start + t.words, t, byteOrder, wordOrder, n - 1)
  }

  lemma {:induction false} IntegersAreSingles(memory: Memory, start: int, t: Kind, byteOrder: Order, wordOrder: Order, n: nat)
    requires t.words >= 1
    ensures var values := Singles(IntegerDecoder(t, byteOrder, wordOrder), memory, start, t.words, n * t.words);
            && (forall i :: 0 <= i < |values| ==> values[i].Datum?)
            && OneByOne(values, start, t.words) == Integers(memory, start, t, byteOrder, wordOrder, n)
    decreases n
  {
    hide Read, Telemetry;
    if n > 0 {
      assert n * t.words == t.words + (n - 1) * t.words;
      IntegersAreSingles(memory, start + t.words, t, byteOrder, wordOrder, n - 1);
      var decode := IntegerDecoder(t, byteOrder, wordOrder);
      var rest := Singles(decode, memory, start + t.words, t.words, (n - 1) * t.words);
      var values := Singles(decode, memory, start, t.words, n * t.words);
      assert values[0] == Datum(Telemetry(Read(memory, start, t.words), t, byteOrder, wordOrder));
      assert values[1..] == rest;
    }
  }

  /**
   For the integer types nothing is ever missing: a wide-range read of `n` values whose
   requests are all answered equals `n` single reads for every chunk limit and all orders.
   */
  method ReadIntegers(memory: Memory, t: Kind, byteOrder: Order, wordOrder: Order, start: int, max: nat, n: nat)
    returns (points: seq<Point<int>>)
    requires t.words >= 1 && max >= 1 && n >= 1
    ensures points == Integers(memory, start, t, byteOrder, wordOrder, n)
  {
    hide Read, Telemetry, Singles, OneByOne, Integers, Decodings, Responses, Joined, Covered, Fitting, NoGap;
    var size := t.words;
    ghost var count := n * size;
    assert start + (n - 1) * size - start + size == count >= 1;
    var ranges := Chunks(start, n * size, max);
    var answers := seq(|ranges|, i requires 0 <= i < |ranges| => Valid(ranges[i].1));
    ChunksTile(start, count, max);
    FullAnswersCover(ranges, answers, start, count, max);
    var result := ReadWideRange(memory, IntegerDecoder(t, byteOrder, wordOrder), start, start + (n - 1) * size, size, max, answers);
    IntegersAreSingles(memory, start, t, byteOrder, wordOrder, n);
    points := result.value;
  }
}

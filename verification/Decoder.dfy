// What the binary decoders compute, on every byte string: malformed,
// truncated or followed by anything. A decoder that reads past the end or
// loops would have no value here.
module Decoder {
  import opened Outcomes
  import opened LittleEndian
  import opened WireValues

  // Why reading a sequence of entries stopped.
  datatype EntryError = TruncatedEntry(index: nat) | TruncatedKey | TruncatedValue | BadValue(key: Str)

  datatype Step = Step(data: Data, used: nat)

  datatype Steps = Steps(elems: seq<Value>, used: nat)

  function KindOf(t: byte): (k: NumKind)
    requires 2 <= t <= 11
    ensures NumTag(k) == t
  {
    if t == 2 then Short else if t == 3 then UShort else if t == 4 then Int
    else if t == 5 then UInt else if t == 6 then Long else if t == 7 then ULong
    else if t == 8 then LLong else if t == 9 then ULLong else if t == 10 then Float else Double
  }

  // A named value at the front of b.
  ghost function DecodeValue(b: Str): (r: Option<Value>)
    ensures r.Some? ==> Size(r.value) <= |b|
    decreases |b|, 0
  {
    if |b| < 5 then None
    else
      var n := Len(b);
      if 4 + n + 1 > |b| || b[4 + n] > 15 then None
      else
        match DecodeData(b[4 + n], b[5 + n..])
        case None => None
        case Some(step) => Some(Value(b[4..4 + n], step.data))
  }

  // The data of type t at the front of b, and how far the offset moves.
  ghost function DecodeData(t: byte, b: Str): (r: Option<Step>)
    requires t <= 15
    ensures r.Some? ==> DataSize(r.value.data) <= r.value.used <= |b|
    decreases |b|, 2
  {
    if t == 0 then Some(Step(Null, 0))
    else if t == 1 then
      if |b| == 0 then None else Some(Step(Bool(b[0] != 0), 1))
    else if t <= 11 then
      var w := Width(KindOf(t));
      if |b| < w then None else Some(Step(Num(Slot(KindOf(t)), FromLe(b[..w])), w))
    else if |b| < 4 then None
    else if t == 15 then
      match DecodeElems(Len(b), b[4..])
      case None => None
      case Some(steps) => Some(Step(List(steps.elems), 4 + steps.used))
    else
      var n := Len(b);
      if t == 14 && n == 0 then Some(Step(NullBox, 4))
      else if 4 + n > |b| then None
      else if t == 12 then Some(Step(Text(b[4..4 + n]), 4 + n))
      else if t == 13 then Some(Step(Blob(b[4..4 + n]), 4 + n))
      else
        match DecodeBox(b[4..4 + n])
        case None => Some(Step(NullBox, 4 + n))
        case Some(m) =>
          BoxDataSize(m);
          Some(Step(Box(m), 4 + n))
  }

  // count values one after the other. The offset moves by the size the value
  // just read would have if it were encoded again.
  ghost function DecodeElems(count: nat, b: Str): (r: Option<Steps>)
    ensures r.Some? ==> |r.value.elems| == count
    ensures r.Some? ==> ElemsSize(r.value.elems) == r.value.used <= |b|
    decreases |b|, 1
  {
    if count == 0 then Some(Steps([], 0))
    else
      match DecodeValue(b)
      case None => None
      case Some(e) =>
        match DecodeElems(count - 1, b[Size(e)..])
        case None => None
        case Some(rest) =>
          assert ([e] + rest.elems)[1..] == rest.elems;
          Some(Steps([e] + rest.elems, Size(e) + rest.used))
  }

  // A container's own encoding; None is the null pointer it returns.
  ghost function DecodeBox(b: Str): (r: Option<map<Str, Value>>)
    ensures r.Some? ==> BoxSize(r.value) <= |b|
    decreases |b|, 3
  {
    if |b| < 4 then None
    else
      match DecodeEntries(true, 0, Len(b), b[4..], map[])
      case Ok(m) => Some(m)
      case Err(_) => None
  }

  // Entries i, i+1, ..., left of them in all, added to acc. A container skips
  // an entry whose value cannot be read (lenient); a store fails on it.
  ghost function DecodeEntries(lenient: bool, i: nat, left: nat, b: Str, acc: map<Str, Value>)
    : (r: Result<map<Str, Value>, EntryError>)
    ensures r.Ok? ==> BoxSize(r.value) <= BoxSize(acc) + |b|
    decreases |b|, 2
  {
    if left == 0 then Ok(acc)
    else if |b| < 4 then Err(TruncatedEntry(i))
    else
      var n := Len(b);
      if 4 + n + 4 > |b| then Err(TruncatedKey)
      else
        var key := b[4..4 + n];
        var m := Len(b[4 + n..]);
        if 8 + n + m > |b| then Err(TruncatedValue)
        else
          match DecodeValue(b[8 + n..8 + n + m])
          case None =>
            if lenient then DecodeEntries(lenient, i + 1, left - 1, b[8 + n + m..], acc) else Err(BadValue(key))
          case Some(v) =>
            BoxSizeAdd(acc, key, Value([], v.data));
            DecodeEntries(lenient, i + 1, left - 1, b[8 + n + m..], acc[key := Value([], v.data)])
  }
}

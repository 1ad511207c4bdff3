/**
 The wire form of domain names, written by `name_wire` and read by `_dns_names`. Names are ASCII text,
 given by its bytes.
 */
module DnsNames {
  import opened Wrappers
  import opened Bytes

  const Dot: Byte := 46

  // ----- owner_key -----

  predicate IsSpace(b: Byte) {
    9 <= b <= 13 || 28 <= b <= 32
  }

  function Strip(s: Bytes): Bytes {
    if s != [] && IsSpace(s[0]) then Strip(s[1..])
    else if s != [] && IsSpace(s[|s| - 1]) then Strip(s[..|s| - 1])
    else s
  }

  function StripDots(s: Bytes): (r: Bytes)
    ensures r == [] || r[|r| - 1] != Dot
  {
    if s != [] && s[|s| - 1] == Dot then StripDots(s[..|s| - 1]) else s
  }

  function LowerByte(b: Byte): Byte {
    if 65 <= b <= 90 then b + 32 else b
  }

  function Lower(s: Bytes): (r: Bytes)
    ensures |r| == |s| && forall i :: 0 <= i < |s| ==> r[i] == LowerByte(s[i])
  {
    seq(|s|, i requires 0 <= i < |s| => LowerByte(s[i]))
  }

  /** `owner_key`: lower case, no dot at the end */
  function OwnerKey(name: Bytes): (r: Bytes)
    ensures r == [] || r[|r| - 1] != Dot
  {
    Lower(StripDots(Strip(name)))
  }

  lemma {:induction false} StripParts(s: Bytes) returns (before: Bytes, after: Bytes)
    ensures s == before + Strip(s) + after
    ensures forall b :: b in before + after ==> IsSpace(b)
    ensures Strip(s) != [] ==> !IsSpace(Strip(s)[0]) && !IsSpace(Strip(s)[|Strip(s)| - 1])
    decreases |s|
  {
    if s != [] && IsSpace(s[0]) {
      before, after := StripParts(s[1..]);
      before := [s[0]] + before;
    } else if s != [] && IsSpace(s[|s| - 1]) {
      before, after := StripParts(s[..|s| - 1]);
      after := after + [s[|s| - 1]];
      assert s == s[..|s| - 1] + [s[|s| - 1]];
    } else {
      before, after := [], [];
    }
  }

  lemma {:induction false} DotParts(s: Bytes) returns (dots: Bytes)
    ensures s == StripDots(s) + dots && forall b :: b in dots ==> b == 46
  {
    if s != [] && s[|s| - 1] == Dot {
      dots := DotParts(s[..|s| - 1]);
      dots := dots + [Dot];
      assert s == s[..|s| - 1] + [s[|s| - 1]];
    } else {
      dots := [];
    }
  }

  /** Every name is its comparison form in some case, then dots, between spaces, none of which belong to it. */
  lemma OwnerKeyIs(name: Bytes) returns (before: Bytes, body: Bytes, dots: Bytes, after: Bytes)
    ensures name == before + (body + dots) + after
    ensures (forall b :: b in before + after ==> 9 <= b <= 13 || 28 <= b <= 32) && forall b :: b in dots ==> b == 46
    ensures body != [] ==> body[|body| - 1] != 46
    ensures body + dots != [] ==> !IsSpace((body + dots)[0]) && !IsSpace((body + dots)[|body + dots| - 1])
    ensures |OwnerKey(name)| == |body|
    ensures forall i :: 0 <= i < |body| ==> OwnerKey(name)[i] == if 65 <= body[i] <= 90 then 32 + body[i] else body[i]
  {
    before, after := StripParts(name);
    dots := DotParts(Strip(name));
    body := StripDots(Strip(name));
    hide Strip, StripDots;
  }

  // ----- labels -----

  /** `s.split('.')` */
  function Split(s: Bytes): (r: seq<Bytes>)
    ensures r != []
  {
    if s == [] then [[]]
    else
      var rest := Split(s[1..]);
      if s[0] == Dot then [[]] + rest else [[s[0]] + rest[0]] + rest[1..]
  }

  /** `'.'.join(labels)` */
  function Join(labels: seq<Bytes>): Bytes {
    if labels == [] then []
    else if |labels| == 1 then labels[0]
    else labels[0] + [Dot] + Join(labels[1..])
  }

  lemma {:induction false} JoinSplit(s: Bytes)
    ensures Join(Split(s)) == s
  {
    if s != [] {
      JoinSplit(s[1..]);
      var rest := Split(s[1..]);
      if s[0] == Dot {
        assert Split(s)[1..] == rest;
      } else {
        assert Split(s)[1..] == rest[1..];
        if |rest| > 1 {
          assert Join(Split(s)) == ([s[0]] + rest[0]) + [Dot] + Join(rest[1..]);
        }
      }
    }
  }

  // ----- name_wire -----

  function LabelWire(l: Bytes): Bytes
    requires |l| < 256
  {
    [|l|] + l
  }

  function LabelsWire(labels: seq<Bytes>): Bytes
    requires forall l :: l in labels ==> |l| < 256
  {
    if labels == [] then [] else LabelWire(labels[0]) + LabelsWire(labels[1..])
  }

  datatype WireError = LabelTooLong | NotAscii

  /** What writing a label raises: its length comes first. */
  function LabelError(l: Bytes): Option<WireError> {
    if |l| >= 256 then Some(LabelTooLong)
    else if exists b :: b in l && b >= 128 then Some(NotAscii)
    else None
  }

  /** The first label that cannot be written */
  ghost predicate StopsAt(labels: seq<Bytes>, i: nat, e: WireError) {
    && i < |labels| && LabelError(labels[i]) == Some(e)
    && forall j :: 0 <= j < i ==> LabelError(labels[j]).None?
  }

  function FirstError(labels: seq<Bytes>): (r: Option<WireError>)
    ensures r.None? <==> forall l :: l in labels ==> LabelError(l).None?
    ensures r.Some? ==> exists i: nat :: StopsAt(labels, i, r.value)
  {
    if labels == [] then None
    else if LabelError(labels[0]).Some? then
      assert StopsAt(labels, 0, LabelError(labels[0]).value);
      LabelError(labels[0])
    else
      var r := FirstError(labels[1..]);
      assert r.Some? ==> exists i: nat :: StopsAt(labels, i, r.value) by {
        if r.Some? {
          var i: nat :| StopsAt(labels[1..], i, r.value);
          assert StopsAt(labels, i + 1, r.value);
        }
      }
      r
  }

  function NameWire(name: Bytes): Result<Bytes, WireError> {
    var key := OwnerKey(name);
    if key == [] then Success([0])
    else
      match FirstError(Split(key))
      case Some(e) => Failure(e)
      case None => Success(LabelsWire(Split(key)) + [0])
  }

  /** The labels of a name are what is between its dots. */
  lemma {:induction false} SplitIs(s: Bytes)
    ensures Join(Split(s)) == s
    ensures forall l :: l in Split(s) ==> 46 !in l
  {
    JoinSplit(s);
    if s != [] {
      SplitIs(s[1..]);
    }
  }

  /** The wire form consists of the labels, each after its length (RFC 1035, section 3.1). */
  lemma {:induction false} LabelsWireIs(labels: seq<Bytes>, l: Bytes)
    requires forall k :: k in labels + [l] ==> |k| < 256
    ensures (forall k :: k in labels ==> |k| < 256) && LabelsWire([]) == []
    ensures LabelsWire(labels + [l]) == LabelsWire(labels) + [|l|] + l
  {
    assert forall k :: k in labels ==> k in labels + [l];
    assert l in labels + [l];
    if labels == [] {
      assert labels + [l] == [l] && [l][1..] == [];
      assert LabelsWire([l]) == LabelWire(l) + LabelsWire([]);
    } else {
      assert forall k :: k in labels[1..] + [l] ==> k in labels + [l];
      LabelsWireIs(labels[1..], l);
      hide LabelWire;
      assert (labels + [l])[0] == labels[0] && (labels + [l])[1..] == labels[1..] + [l];
      var first, rest := LabelWire(labels[0]), LabelsWire(labels[1..]);
      assert first + (rest + [|l|] + l) == first + rest + [|l|] + l;
    }
  }

  // ----- _dns_names -----

  function Flush(labels: seq<Bytes>): seq<Bytes> {
    if labels == [] then [] else [Join(labels)]
  }

  function Decode(raw: Bytes, labels: seq<Bytes>): seq<Bytes>
    decreases |raw|
  {
    if raw == [] then Flush(labels)
    else if raw[0] == 0 then Flush(labels) + Decode(raw[1..], [])
    else if 1 + raw[0] > |raw| then Flush(labels)
    else Decode(raw[1 + raw[0]..], labels + [raw[1..1 + raw[0]]])
  }

  method ReadNames(raw: Bytes) returns (names: seq<Bytes>)
    ensures names == Decode(raw, [])
  {
    hide Decode, Join;
    names := [];
    var i := 0;
    var labels: seq<Bytes> := [];
    assert raw[0..] == raw;
    assert [] + Decode(raw, []) == Decode(raw, []);
    while i < |raw|
      invariant 0 <= i <= |raw|
      invariant names + Decode(raw[i..], labels) == Decode(raw, [])
      decreases |raw| - i
    {
      DecodeAt(raw, i, labels, names);
      var length := raw[i];
      i := i + 1;
      if length == 0 {
        if labels != [] {
          names := names + [Join(labels)];
          labels := [];
        }
      } else {
        if i + length > |raw| {
          if labels != [] {
            names := names + [Join(labels)];
          }
          return;
        }
        labels := labels + [raw[i..i + length]];
        i := i + length;
      }
    }
    DecodeAtEnd(raw[i..], labels, names);
    if labels != [] {
      names := names + [Join(labels)];
    }
  }

  /** What is left to decode after one byte, and the label that it announces */
  lemma DecodeAt(raw: Bytes, i: nat, labels: seq<Bytes>, names: seq<Bytes>)
    requires i < |raw|
    ensures var n: int := raw[i]; var now := names + Decode(raw[i..], labels);
      && (n == 0 && labels == [] ==> now == names + Decode(raw[i + 1..], []))
      && (n == 0 && labels != [] ==> now == names + [Join(labels)] + Decode(raw[i + 1..], []))
      && (n > 0 && i + 1 + n > |raw| ==> now == if labels == [] then names else names + [Join(labels)])
      && (n > 0 && i + 1 + n <= |raw| ==> now == names + Decode(raw[i + 1 + n..], labels + [raw[i + 1..i + 1 + n]]))
  {
    var rest := raw[i..];
    var n: int := raw[i];
    hide Join;
    assert rest[1..] == raw[i + 1..];
    if n == 0 {
      assert Decode(rest, labels) == Flush(labels) + Decode(raw[i + 1..], []);
      hide Decode;
      assert names + (Flush(labels) + Decode(raw[i + 1..], [])) == names + Flush(labels) + Decode(raw[i + 1..], []);
      assert [] + Decode(raw[i + 1..], []) == Decode(raw[i + 1..], []);
    } else if i + 1 + n > |raw| {
      assert Decode(rest, labels) == Flush(labels);
      assert names + [] == names;
    } else {
      assert rest[1..1 + n] == raw[i + 1..i + 1 + n] && rest[1 + n..] == raw[i + 1 + n..];
    }
  }

  lemma DecodeAtEnd(raw: Bytes, labels: seq<Bytes>, names: seq<Bytes>)
    requires raw == []
    ensures names + Decode(raw, labels) == if labels == [] then names else names + [Join(labels)]
  {
    hide Join;
    assert names + [] == names;
  }

  // ----- round trip -----

  /** What is left of the names after decoding: one entry for each name but the root */
  function Keys(names: seq<Bytes>): seq<Bytes> {
    if names == [] then []
    else (if OwnerKey(names[0]) == [] then [] else [OwnerKey(names[0])]) + Keys(names[1..])
  }

  /** A name that can be encoded and has no empty label */
  predicate Encodable(name: Bytes) {
    NameWire(name).Success? && (OwnerKey(name) == [] || forall l :: l in Split(OwnerKey(name)) ==> l != [])
  }

  function Wires(names: seq<Bytes>): Bytes
    requires forall n :: n in names ==> Encodable(n)
  {
    if names == [] then []
    else
      assert Encodable(names[0]);
      NameWire(names[0]).value + Wires(names[1..])
  }

  lemma DecodeOne(l: Bytes, rest: Bytes, before: seq<Bytes>)
    requires 0 < |l| < 256
    ensures Decode([|l|] + l + rest, before) == Decode(rest, before + [l])
  {
    var raw := [|l|] + l + rest;
    assert raw[1..1 + |l|] == l && raw[1 + |l|..] == rest;
  }

  lemma DecodeEnd(rest: Bytes, before: seq<Bytes>)
    ensures Decode([0] + rest, before) == Flush(before) + Decode(rest, [])
  {
    assert ([0] + rest)[1..] == rest;
  }

  lemma {:induction false} DecodeLabels(labels: seq<Bytes>, before: seq<Bytes>, rest: Bytes)
    requires forall l :: l in labels ==> 0 < |l| < 256
    ensures Decode(LabelsWire(labels) + [0] + rest, before) == Flush(before + labels) + Decode(rest, [])
    decreases |labels|
  {
    hide Decode, Flush;
    if labels == [] {
      assert LabelsWire(labels) + [0] + rest == [0] + rest && before + labels == before;
      DecodeEnd(rest, before);
    } else {
      var l := labels[0];
      var more := LabelsWire(labels[1..]) + [0] + rest;
      assert LabelsWire(labels) + [0] + rest == [|l|] + l + more;
      DecodeOne(l, more, before);
      DecodeLabels(labels[1..], before + [l], rest);
      assert before + [l] + labels[1..] == before + labels;
    }
  }

  /** The labels before a label that is cut short, or before the end, are still a name. */
  lemma {:induction false} CutName(labels: seq<Bytes>, before: seq<Bytes>, rest: Bytes)
    requires forall l :: l in labels ==> 0 < |l| < 256
    requires rest != [] ==> rest[0] > 0 && |rest| <= rest[0]
    ensures Decode(LabelsWire(labels) + rest, before) == if before + labels == [] then [] else [Join(before + labels)]
    decreases |labels|
  {
    hide Decode, Join;
    if labels == [] {
      assert LabelsWire(labels) + rest == rest && before + labels == before;
      CutLabel(before, rest);
    } else {
      var l := labels[0];
      var more := LabelsWire(labels[1..]) + rest;
      assert LabelsWire(labels) + rest == [|l|] + l + more;
      DecodeOne(l, more, before);
      CutName(labels[1..], before + [l], rest);
      assert before + [l] + labels[1..] == before + labels;
    }
  }

  lemma CutLabel(before: seq<Bytes>, rest: Bytes)
    requires rest != [] ==> rest[0] > 0 && |rest| <= rest[0]
    ensures Decode(rest, before) == if before == [] then [] else [Join(before)]
  {
    hide Join;
  }

  /** The names decoded from the wire forms of any list of names are their comparison forms, the root
      excepted. */
  lemma {:induction false} DecodeWires(names: seq<Bytes>)
    requires forall n :: n in names ==> Encodable(n)
    ensures Decode(Wires(names), []) == Keys(names)
  {
    if names != [] {
      var key, rest := OwnerKey(names[0]), Wires(names[1..]);
      assert Encodable(names[0]);
      DecodeWires(names[1..]);
      hide OwnerKey;
      if key == [] {
        assert Wires(names) == [0] + rest;
        assert ([0] + rest)[1..] == rest;
      } else {
        DecodeLabels(Split(key), [], rest);
        JoinSplit(key);
        assert [] + Split(key) == Split(key);
      }
    }
  }

  // ----- names with an empty label -----

  /** Every label and the separator or end after it */
  function Spread(labels: seq<Bytes>): nat {
    if labels == [] then 0 else |labels[0]| + 1 + Spread(labels[1..])
  }

  /** The same without the empty labels */
  function Bulk(labels: seq<Bytes>): nat {
    if labels == [] then 0 else (if labels[0] == [] then 0 else |labels[0]| + 1) + Bulk(labels[1..])
  }

  lemma {:induction false} SpreadAppend(labels: seq<Bytes>, l: Bytes)
    ensures Spread(labels + [l]) == Spread(labels) + |l| + 1
  {
    if labels != [] {
      SpreadAppend(labels[1..], l);
      assert (labels + [l])[1..] == labels[1..] + [l];
    }
  }

  lemma {:induction false} JoinLength(labels: seq<Bytes>)
    requires labels != []
    ensures |Join(labels)| + 1 == Spread(labels)
  {
    if |labels| > 1 {
      JoinLength(labels[1..]);
    }
  }

  lemma {:induction false} BulkIsSpread(labels: seq<Bytes>)
    ensures Bulk(labels) <= Spread(labels)
    ensures Bulk(labels) == Spread(labels) <==> forall l :: l in labels ==> l != []
  {
    if labels != [] {
      BulkIsSpread(labels[1..]);
      if labels[0] == [] {
        assert labels[0] in labels;
      } else if forall l :: l in labels[1..] ==> l != [] {
        assert labels == [labels[0]] + labels[1..];
        assert forall l :: l in labels ==> l != [];
      } else {
        var l :| l in labels[1..] && l == [];
        assert l in labels;
      }
    }
  }

  lemma FlushSpread(labels: seq<Bytes>, rest: seq<Bytes>)
    ensures Spread(Flush(labels) + rest) == Spread(labels) + Spread(rest)
  {
    if labels == [] {
      assert Flush(labels) + rest == rest;
    } else {
      JoinLength(labels);
      assert (Flush(labels) + rest)[1..] == rest;
    }
  }

  /** Decoding loses the separators around empty labels. */
  lemma {:induction false} DecodeSpread(labels: seq<Bytes>, before: seq<Bytes>)
    requires forall l :: l in labels ==> |l| < 256
    ensures Spread(Decode(LabelsWire(labels) + [0], before)) == Spread(before) + Bulk(labels)
    decreases |labels|
  {
    var raw := LabelsWire(labels) + [0];
    if labels == [] {
      assert raw == [0] && raw[1..] == [];
      assert Flush([]) == [];
      FlushSpread(before, []);
    } else {
      var l := labels[0];
      var more := LabelsWire(labels[1..]) + [0];
      assert raw == [|l|] + l + more;
      if l == [] {
        assert raw[1..] == more;
        DecodeSpread(labels[1..], []);
        FlushSpread(before, Decode(more, []));
      } else {
        assert raw[1..1 + |l|] == l && raw[1 + |l|..] == more;
        DecodeSpread(labels[1..], before + [l]);
        SpreadAppend(before, l);
      }
    }
  }

  /** The wire form of a name is read back as the name exactly when it has no empty label. */
  lemma ReadBackExactly(name: Bytes)
    requires NameWire(name).Success? && OwnerKey(name) != []
    ensures Decode(NameWire(name).value, []) == [OwnerKey(name)] <==> forall l :: l in Split(OwnerKey(name)) ==> l != []
  {
    hide OwnerKey;
    var key := OwnerKey(name);
    var labels := Split(key);
    JoinSplit(key);
    JoinLength(labels);
    DecodeSpread(labels, []);
    BulkIsSpread(labels);
    assert Spread([key]) == |key| + 1 by {
      assert Spread([key]) == |key| + 1 + Spread([key][1..]);
    }
    if forall l :: l in labels ==> l != [] {
      DecodeLabels(labels, [], []);
      assert LabelsWire(labels) + [0] + [] == LabelsWire(labels) + [0];
      assert [] + labels == labels;
    }
  }

  lemma SplitNext(b: Byte, s: Bytes)
    ensures Split([b] + s) == if b == Dot then [[]] + Split(s) else [[b] + Split(s)[0]] + Split(s)[1..]
  {
    assert ([b] + s)[1..] == s;
  }

  lemma EmptyLabel()
    ensures OwnerKey([97, Dot, Dot, 98]) == [97, Dot, Dot, 98]
    ensures Split([97, Dot, Dot, 98]) == [[97], [], [98]]
  {
    var name: Bytes := [97, Dot, Dot, 98];
    assert Strip(name) == name && StripDots(name) == name;
    assert Lower(name) == name;
    SplitNext(98, []);
    assert [98] + [] == [98];
    assert Split([98]) == [[98]];
    SplitNext(Dot, [98]);
    assert [Dot] + [98] == [Dot, 98];
    SplitNext(Dot, [Dot, 98]);
    assert [Dot] + [Dot, 98] == [Dot, Dot, 98];
    SplitNext(97, [Dot, Dot, 98]);
    assert [97] + [Dot, Dot, 98] == name;
    var rest: seq<Bytes> := [[], [], [98]];
    assert Split([Dot, Dot, 98]) == rest;
    hide Split;
    assert rest[1..] == [[], [98]] && [97] + rest[0] == [97];
  }

  lemma EmptyLabelWire()
    ensures NameWire([97, Dot, Dot, 98]) == Success([1, 97, 0, 1, 98, 0])
  {
    EmptyLabel();
    var labels: seq<Bytes> := [[97], [], [98]];
    assert labels[1..] == [[], [98]] && labels[1..][1..] == [[98]] && [[98]][1..] == [];
    assert LabelsWire([[98]]) == [1, 98];
    assert LabelsWire([[], [98]]) == [0, 1, 98];
    assert LabelsWire(labels) == [1, 97, 0, 1, 98];
    hide OwnerKey, Split, LabelsWire;
    var name: Bytes := [97, Dot, Dot, 98];
    assert forall l :: l in labels ==> LabelError(l).None?;
    assert [1, 97, 0, 1, 98] + [0] == [1, 97, 0, 1, 98, 0];
  }

  /** `a..b` comes back as two names. */
  lemma EmptyLabelIsLost()
    ensures NameWire([97, Dot, Dot, 98]).Success?
    ensures Decode(NameWire([97, Dot, Dot, 98]).value, []) == [[97], [98]]
  {
    EmptyLabelWire();
    hide NameWire;
    var raw: Bytes := [1, 97, 0, 1, 98, 0];
    assert raw[1..2] == [97] && raw[2..] == [0, 1, 98, 0] && raw[2..][1..] == raw[3..] && raw[3..] == [1, 98, 0];
    assert raw[3..][1..2] == [98] && raw[3..][2..] == [0] && [0][1..] == [];
    assert Decode([0], [[98]]) == [[98]];
    assert Decode(raw[3..], []) == [[98]] by {
      assert [] + [[98]] == [[98]];
    }
    assert Decode(raw[2..], [[97]]) == [[97], [98]];
    assert [] + [[97]] == [[97]];
  }
}

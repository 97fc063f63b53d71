// GetAndDeleteRMSZValueFromRegistry of TouchscreenFilterDriver.c: the driver's own name is taken
// out of the class's UpperFilters list, a REG_MULTI_SZ value, by walking the encoded value with
// one byte offset and writing the kept entries with another.
module MultiString {
  import opened Buffers
  import opened Wrappers

  type WString = seq<char>

  // What is done to the registry value.
  datatype Action = Delete | Set(value: WString)

  ghost predicate EntryOk(e: WString) {
    e != [] && '\0' !in e
  }

  ghost predicate WellFormed(list: seq<WString>) {
    forall i :: 0 <= i < |list| ==> EntryOk(list[i])
  }

  // The entries, each with its terminator.
  function Body(list: seq<WString>): WString {
    if list == [] then [] else list[0] + ['\0'] + Body(list[1..])
  }

  function Encode(list: seq<WString>): WString {
    Body(list) + ['\0']
  }

  // The length of the string a value starts with, or of the whole value.
  function Length(data: WString): (n: nat)
    ensures n <= |data|
    ensures '\0' !in data[..n]
    ensures n < |data| ==> data[n] == '\0'
  {
    if data == [] || data[0] == '\0' then 0 else 1 + Length(data[1..])
  }

  function Decode(data: WString): Option<seq<WString>>
    decreases |data|
  {
    if data == ['\0'] then Some([])
    else
      var n := Length(data);
      if n == 0 || n == |data| then None
      else
        match Decode(data[n + 1..])
        case None => None
        case Some(rest) => Some([data[..n]] + rest)
  }

  // The list with every entry equal to the name left out.
  function Without(list: seq<WString>, name: WString): seq<WString> {
    if list == [] then []
    else if list[|list| - 1] == name then Without(list[..|list| - 1], name)
    else Without(list[..|list| - 1], name) + [list[|list| - 1]]
  }

  // ---------- coding ----------

  lemma LengthOfEntry(e: WString, rest: WString)
    requires '\0' !in e
    ensures Length(e + ['\0'] + rest) == |e|
  {
    if e != [] {
      assert (e + ['\0'] + rest)[1..] == e[1..] + ['\0'] + rest;
      LengthOfEntry(e[1..], rest);
    }
  }

  lemma {:induction false} DecodeEncode(list: seq<WString>)
    requires WellFormed(list)
    ensures Decode(Encode(list)) == Some(list)
  {
    if list != [] {
      var e, rest := list[0], Encode(list[1..]);
      assert EntryOk(e);
      assert Encode(list) == e + ['\0'] + rest;
      LengthOfEntry(e, rest);
      assert (e + ['\0'] + rest)[|e| + 1..] == rest;
      assert (e + ['\0'] + rest)[..|e|] == e;
      DecodeEncode(list[1..]);
      assert list == [e] + list[1..];
    }
  }

  lemma PrependEntry(e: WString, rest: seq<WString>)
    ensures Encode([e] + rest) == e + ['\0'] + Encode(rest)
    ensures WellFormed([e] + rest) <==> EntryOk(e) && WellFormed(rest)
  {
    assert ([e] + rest)[1..] == rest;
    assert forall i :: 0 <= i < |rest| ==> ([e] + rest)[i + 1] == rest[i];
  }

  lemma EntrySplit(data: WString)
    requires 0 < Length(data) < |data|
    ensures var n := Length(data); EntryOk(data[..n]) && data == data[..n] + ['\0'] + data[n + 1..]
  {
    var n := Length(data);
    SplitAt(data, n);
    assert data[n] == '\0';
  }

  lemma SplitAt(data: WString, n: nat)
    requires n < |data|
    ensures data == data[..n] + [data[n]] + data[n + 1..]
  {
  }

  lemma {:induction false} EncodeDecode(data: WString)
    requires Decode(data).Some?
    ensures WellFormed(Decode(data).value) && Encode(Decode(data).value) == data
    decreases |data|
  {
    if data != ['\0'] {
      var e, rest := data[..Length(data)], data[Length(data) + 1..];
      EncodeDecode(rest);
      PrependEntry(e, Decode(rest).value);
      EntrySplit(data);
      assert Decode(data).value == [e] + Decode(rest).value;
    }
  }

  lemma {:induction false} BodyAppend(list: seq<WString>, e: WString)
    ensures Body(list + [e]) == Body(list) + e + ['\0']
  {
    if list == [] {
      assert list + [e] == [e];
    } else {
      assert (list + [e])[1..] == list[1..] + [e];
      BodyAppend(list[1..], e);
    }
  }

  // ---------- the filter ----------

  // The positions that do not hold the name, in order.
  ghost function Kept(list: seq<WString>, name: WString): seq<nat> {
    if list == [] then []
    else
      var k := |list| - 1;
      Kept(list[..k], name) + if list[k] == name then [] else [k]
  }

  lemma {:induction false} PositionsKept(list: seq<WString>, name: WString)
    ensures var ks := Kept(list, name);
            && (forall j :: 0 <= j < |ks| ==> ks[j] < |list| && list[ks[j]] != name)
            && (forall i, j :: 0 <= i < j < |ks| ==> ks[i] < ks[j])
            && (forall i: nat :: i < |list| && list[i] != name ==> i in ks)
  {
    if list != [] {
      var k := |list| - 1;
      var ks := Kept(list[..k], name);
      PositionsKept(list[..k], name);
      assert forall j :: 0 <= j < |ks| ==> ks[j] < k && list[..k][ks[j]] == list[ks[j]];
      assert forall i: nat :: i < k ==> list[..k][i] == list[i];
    }
  }

  lemma {:induction false} EntriesKept(list: seq<WString>, name: WString)
    ensures var ks, r := Kept(list, name), Without(list, name);
            |r| == |ks| && forall j :: 0 <= j < |ks| ==> ks[j] < |list| && r[j] == list[ks[j]]
  {
    if list != [] {
      var k := |list| - 1;
      var ks := Kept(list[..k], name);
      EntriesKept(list[..k], name);
      assert forall j :: 0 <= j < |ks| ==> ks[j] < k && list[..k][ks[j]] == list[ks[j]];
    }
  }

  // Nothing else is lost, nothing is reordered or repeated: the filtered list holds, one by one, what
  // the list holds at those positions, and they are all the positions without the name.
  lemma KeptPositions(list: seq<WString>, name: WString)
    ensures var ks, r := Kept(list, name), Without(list, name);
            && |r| == |ks|
            && (forall j :: 0 <= j < |ks| ==> ks[j] < |list| && list[ks[j]] != name && r[j] == list[ks[j]])
            && (forall i, j :: 0 <= i < j < |ks| ==> ks[i] < ks[j])
            && (forall i: nat :: i < |list| && list[i] != name ==> i in ks)
  {
    PositionsKept(list, name);
    EntriesKept(list, name);
  }

  lemma {:induction false} WithoutAbsent(list: seq<WString>, name: WString)
    requires name !in list
    ensures Without(list, name) == list
  {
    if list != [] {
      var k := |list| - 1;
      assert list[k] in list && forall e :: e in list[..k] ==> e in list;
      WithoutAbsent(list[..k], name);
      assert list == list[..k] + [list[k]];
    }
  }

  // Installing the driver at the end of a list that does not name it, then removing it, restores
  // the list.
  lemma AppendThenRemove(list: seq<WString>, name: WString)
    requires name !in list
    ensures Without(list + [name], name) == list
  {
    assert (list + [name])[..|list|] == list;
    WithoutAbsent(list, name);
  }

  // ---------- the loop ----------

  // RtlStringCbLengthW: the length in bytes, two for a WCHAR.
  method StringCbLength(data: WString, from: nat) returns (bytes: nat)
    requires from < |data| && Length(data[from..]) < |data| - from
    ensures bytes == 2 * Length(data[from..])
  {
    var n := 0;
    ghost var rest := data[from..];
    while data[from + n] != '\0'
      invariant 0 <= n <= Length(rest)
      decreases Length(rest) - n
    {
      n := n + 1;
    }
    assert rest[n] == '\0';
    bytes := 2 * n;
  }

  function Cut(n: nat, cap: nat): (k: nat)
    ensures k <= n && k <= cap
  {
    if n <= cap then n else cap
  }

  // A buffer with a terminated string written into it.
  function WithString(before: WString, at: nat, part: WString): WString
    requires at + |part| < |before|
  {
    Splice(before, at, part + ['\0'])
  }

  // RtlStringCbCopyW: copies a string with its terminator, cut to the room in bytes.
  method StringCbCopy(dest: array<char>, at: nat, room: nat, data: WString, from: nat)
    requires from < |data| && Length(data[from..]) < |data| - from
    requires room / 2 > 0 && at + room / 2 <= dest.Length
    modifies dest
    ensures dest[..] == WithString(old(dest[..]), at, data[from..from + Cut(Length(data[from..]), room / 2 - 1)])
  {
    ghost var before := dest[..];
    var n := CopyChars(dest, at, room / 2 - 1, data, from);
    dest[at + n] := '\0';
    Spliced(before, dest[..], at, data[from..from + n] + ['\0']);
  }

  // The characters up to the terminator or the cap.
  method CopyChars(dest: array<char>, at: nat, cap: nat, data: WString, from: nat) returns (n: nat)
    requires from < |data| && Length(data[from..]) < |data| - from && at + cap < dest.Length
    modifies dest
    ensures n == Cut(Length(data[from..]), cap)
    ensures forall j :: at <= j < at + n ==> dest[j] == data[from..from + n][j - at]
    ensures forall j :: 0 <= j < dest.Length && !(at <= j < at + n) ==> dest[j] == old(dest[j])
  {
    n := 0;
    ghost var rest := data[from..];
    while data[from + n] != '\0' && n < cap
      invariant 0 <= n <= Length(rest) && n <= cap
      invariant forall j :: at <= j < at + n ==> dest[j] == data[from + (j - at)]
      invariant forall j :: 0 <= j < dest.Length && !(at <= j < at + n) ==> dest[j] == old(dest[j])
      decreases Length(rest) - n
    {
      dest[at + n] := data[from + n];
      n := n + 1;
    }
    assert n < Length(rest) ==> rest[n] in rest[..Length(rest)];
    assert rest[n] == data[from + n];
  }

  // The character loop over an entry of the name's length.
  method SameName(data: WString, from: nat, name: WString) returns (eqStr: bool)
    requires from + |name| <= |data|
    ensures eqStr == (data[from..from + |name|] == name)
  {
    eqStr := true;
    for i := 0 to |name|
      invariant eqStr == (data[from..from + i] == name[..i])
    {
      assert data[from..from + i + 1] == data[from..from + i] + [data[from + i]] &&
             name[..i + 1] == name[..i] + [name[i]];
      eqStr := eqStr && data[from + i] == name[i];
    }
    assert name[..|name|] == name;
  }

  lemma {:induction false} BodySplit(list: seq<WString>, k: nat)
    requires k < |list|
    ensures Body(list) == Body(list[..k]) + list[k] + ['\0'] + Body(list[k + 1..])
  {
    if k == 0 {
      assert list[..0] == [];
    } else {
      BodySplit(list[1..], k - 1);
      assert list[1..][..k - 1] == list[..k][1..] && list[1..][k..] == list[k + 1..];
    }
  }

  // The part of the new value that has been written, and the zeroed rest.
  ghost predicate Written(kept: seq<WString>, new': WString, at: nat) {
    && at <= |new'| && new'[..at] == Body(kept)
    && forall j :: at <= j < |new'| ==> new'[j] == '\0'
  }

  // The entry at the loop's position, and where it ends.
  lemma EntryAt(data: WString, list: seq<WString>, k: nat, pos: nat)
    requires data == Encode(list) && WellFormed(list) && k < |list| && pos == |Body(list[..k])|
    ensures var e := list[k];
            && e != [] && '\0' !in e && pos + |e| + 1 < |data|
            && data[pos..pos + |e|] == e && Length(data[pos..]) == |e|
            && |Body(list[..k + 1])| == pos + |e| + 1
  {
    var e, rest := list[k], Body(list[k + 1..]) + ['\0'];
    assert EntryOk(e);
    BodySplit(list, k);
    assert data[pos..] == e + ['\0'] + rest;
    assert data[pos..pos + |e|] == data[pos..][..|e|];
    LengthOfEntry(e, rest);
    BodyAppend(list[..k], e);
    assert list[..k + 1] == list[..k] + [e];
  }

  // The loop's end test holds exactly at the final terminator.
  lemma AtEnd(data: WString, list: seq<WString>, k: nat, pos: nat)
    requires data == Encode(list) && WellFormed(list) && k <= |list| && pos == |Body(list[..k])|
    ensures pos < |data| && (pos + 1 == |data| <==> k == |list|)
  {
    if k < |list| {
      EntryAt(data, list, k, pos);
    } else {
      assert list[..k] == list;
    }
  }

  // Moving an entry to the end of the written part.
  lemma WriteEntry(kept: seq<WString>, new': WString, at: nat, e: WString, moved: WString)
    requires Written(kept, new', at) && at + |e| + 1 <= |new'|
    requires moved == WithString(new', at, e)
    ensures Written(kept + [e], moved, at + |e| + 1)
  {
    BodyAppend(kept, e);
    assert moved[..at + |e| + 1] == new'[..at] + e + ['\0'];
    assert forall j :: at + |e| + 1 <= j < |moved| ==> moved[j] == new'[j];
  }

  lemma WithoutNext(list: seq<WString>, name: WString, k: nat)
    requires k < |list|
    ensures Without(list[..k + 1], name) ==
            if list[k] == name then Without(list[..k], name) else Without(list[..k], name) + [list[k]]
  {
    assert list[..k + 1][..k] == list[..k];
  }

  lemma CopiedEntry(t: WString, e: WString)
    requires '\0' !in e && |e| < |t| && t[..|e|] == e && t[|e|] == '\0'
    ensures t[0..] == t && Length(t) == |e|
  {
    assert t == e + ['\0'] + t[|e| + 1..];
    LengthOfEntry(e, t[|e| + 1..]);
  }

  // Copies one entry to the end of the new value, by way of the scratch buffer.
  method CopyEntry(newStr: array<char>, tmpStr: array<char>, data: WString, offset: nat, offsetNew: nat,
                   ghost e: WString)
    requires newStr != tmpStr && newStr.Length == tmpStr.Length == |data|
    requires offset / 2 < |data| && Length(data[offset / 2..]) == |e| && '\0' !in e
    requires offset / 2 + |e| + 1 < |data| && data[offset / 2..offset / 2 + |e|] == e
    requires offsetNew <= offset && offset % 2 == 0 && offsetNew % 2 == 0
    modifies newStr, tmpStr
    ensures newStr[..] == WithString(old(newStr[..]), offsetNew / 2, e)
  {
    StringCbCopy(tmpStr, 0, 2 * |data|, data, offset / 2);
    CopiedEntry(tmpStr[..], e);
    StringCbCopy(newStr, offsetNew / 2, 2 * |data| - offsetNew, tmpStr[..], 0);
  }

  lemma BodyEmpty(list: seq<WString>)
    ensures |Body(list)| == 0 <==> list == []
  {
  }

  // One round of the loop: measures the entry, compares it with the name, and copies it if it
  // differs.
  method FilterEntry(data: WString, name: WString, newStr: array<char>, tmpStr: array<char>, offset: nat,
                     offsetNew: nat,
                     ghost e: WString, ghost kept: seq<WString>)
    returns (strLength: nat, eqStr: bool)
    requires newStr != tmpStr && newStr.Length == tmpStr.Length == |data|
    requires offset / 2 < |data| && Length(data[offset / 2..]) == |e| && '\0' !in e
    requires offset / 2 + |e| + 1 < |data| && data[offset / 2..offset / 2 + |e|] == e
    requires offsetNew <= offset && offset % 2 == 0 && offsetNew % 2 == 0
    requires Written(kept, newStr[..], offsetNew / 2)
    modifies newStr, tmpStr
    ensures strLength == 2 * |e| && eqStr == (e == name)
    ensures Written(if eqStr then kept else kept + [e], newStr[..],
                    if eqStr then offsetNew / 2 else offsetNew / 2 + |e| + 1)
  {
    ghost var before := newStr[..];
    strLength := StringCbLength(data, offset / 2);
    eqStr := false;
    if strLength == 2 * |name| {
      eqStr := SameName(data, offset / 2, name);
    }
    if !eqStr {
      CopyEntry(newStr, tmpStr, data, offset, offsetNew, e);
      WriteEntry(kept, before, offsetNew / 2, e, newStr[..]);
    }
  }

  // How far the loop is, with offsets in bytes: the entries before the k-th are filtered into the
  // new value.
  ghost predicate Progress(data: WString, list: seq<WString>, name: WString, k: nat, offset: nat,
                           new': WString, offsetNew: nat)
  {
    && data == Encode(list) && WellFormed(list) && k <= |list| && |new'| == |data|
    && offset == 2 * |Body(list[..k])| && offset < 2 * |data|
    && offsetNew % 2 == 0 && offsetNew <= offset
    && Written(Without(list[..k], name), new', offsetNew / 2)
  }

  lemma ProgressNext(data: WString, list: seq<WString>, name: WString, k: nat, offset: nat, before: WString,
                     after: WString,
                     offsetNew: nat)
    requires Progress(data, list, name, k, offset, before, offsetNew) && k < |list| && |after| == |data|
    requires var e, kept := list[k], Without(list[..k], name);
             Written(if e == name then kept else kept + [e], after,
                     if e == name then offsetNew / 2 else offsetNew / 2 + |e| + 1)
    ensures var e := list[k];
            Progress(data, list, name, k + 1, offset + 2 * |e| + 2, after,
                     if e == name then offsetNew else offsetNew + 2 * |e| + 2)
  {
    EntryAt(data, list, k, offset / 2);
    WithoutNext(list, name, k);
  }

  method Round(data: WString, name: WString, newStr: array<char>, tmpStr: array<char>, offset: nat, offsetNew: nat,
               ghost list: seq<WString>, ghost k: nat)
    returns (offset': nat, offsetNew': nat)
    requires newStr != tmpStr && newStr.Length == tmpStr.Length == |data|
    requires Progress(data, list, name, k, offset, newStr[..], offsetNew) && k < |list|
    modifies newStr, tmpStr
    ensures Progress(data, list, name, k + 1, offset', newStr[..], offsetNew') && offset < offset'
  {
    EntryAt(data, list, k, offset / 2);
    ghost var before := newStr[..];
    var strLength, eqStr := FilterEntry(data, name, newStr, tmpStr, offset, offsetNew, list[k],
                                        Without(list[..k], name));
    ProgressNext(data, list, name, k, offset, before, newStr[..], offsetNew);
    offset' := offset + strLength + 2;
    offsetNew' := if eqStr then offsetNew else offsetNew + strLength + 2;
  }

  // For every encoded list, the loop stops exactly at the final terminator, and the value is
  // replaced by the encoding of the list without the name, or deleted when nothing is left.
  method RemoveFromValue(data: WString, name: WString) returns (action: Action)
    requires Decode(data).Some?
    ensures var kept := Without(Decode(data).value, name);
            action == if kept == [] then Delete else Set(Encode(kept))
  {
    var dataLength := 2 * |data|;
    var newStr := new char[|data|](_ => '\0');
    var tmpStr := new char[|data|](_ => '\0');
    var offset, offsetNew := 0, 0;
    ghost var list, k := Decode(data).value, 0;
    EncodeDecode(data);
    while offset + 2 != dataLength
      invariant Progress(data, list, name, k, offset, newStr[..], offsetNew)
      decreases dataLength - offset
    {
      AtEnd(data, list, k, offset / 2);
      offset, offsetNew := Round(data, name, newStr, tmpStr, offset, offsetNew, list, k);
      k := k + 1;
    }
    AtEnd(data, list, k, offset / 2);
    assert list[..k] == list;
    action := Store(newStr, offsetNew, Without(list, name));
  }

  // The decision at the end of the loop.
  method Store(newStr: array<char>, offsetNew: nat, ghost kept: seq<WString>) returns (action: Action)
    requires offsetNew % 2 == 0 && offsetNew / 2 < newStr.Length && Written(kept, newStr[..], offsetNew / 2)
    ensures action == if kept == [] then Delete else Set(Encode(kept))
  {
    BodyEmpty(kept);
    if offsetNew == 0 {
      return Delete;
    }
    return Set(newStr[..(offsetNew + 2) / 2]);
  }
}

/**
 Structs kept in Redis hashes: RedisHSetObj prints every field into a string map, RedisHGetObj
 parses the strings back into a struct of the same type, field by field.
 */
module HashCodec {
  import opened Outcomes
  import Decimal

  /** A field's basic type; `Odd` stands for every kind the decoder refuses, such as a float. */
  datatype Kind = StringKind | IntKind | BoolKind | Odd

  datatype Scalar = Str(s: string) | Int(i: int) | Bool(b: bool) | OddValue(printed: string)

  /** A gorm.DeletedAt holds a time in whole seconds, or nothing. */
  datatype Value =
    | Plain(v: Scalar)
    | Pointer(kind: Kind, target: Option<Scalar>)
    | DeletedAt(time: Option<int>)

  datatype Field = Field(name: string, value: Value)

  datatype DecodeError =
    | NotFound
    | BadInt(name: string)
    | BadBool(name: string)
    | BadTime(name: string)
    | Unsupported(name: string)

  type Hash = map<string, string>

  /** time.Parse of an RFC 3339 text. */
  type TimeParser = string -> Option<int>

  function KindOf(v: Scalar): Kind {
    match v case Str(_) => StringKind case Int(_) => IntKind case Bool(_) => BoolKind case OddValue(_) => Odd
  }

  function ZeroScalar(kind: Kind): Scalar {
    match kind case StringKind => Str("") case IntKind => Int(0) case BoolKind => Bool(false) case Odd => OddValue("0")
  }

  // ---------- encoding ----------

  function PrintScalar(v: Scalar): string {
    match v
    case Str(s) => s
    case Int(i) => Decimal.Print(i)
    case Bool(b) => if b then "true" else "false"
    case OddValue(printed) => printed
  }

  /** The text stored for a field; DeletedAt fields are skipped. */
  function Encoded(v: Value): Option<string> {
    match v
    case Plain(s) => Some(PrintScalar(s))
    case Pointer(_, None) => Some("")
    case Pointer(_, Some(s)) => Some(PrintScalar(s))
    case DeletedAt(_) => None
  }

  function Encode(fields: seq<Field>): Hash {
    if fields == [] then map[] else
      var f := fields[|fields| - 1];
      var front := Encode(fields[..|fields| - 1]);
      match Encoded(f.value) case Some(text) => front[f.name := text] case None => front
  }

  method PrintFields(fields: seq<Field>) returns (data: Hash)
    ensures data == Encode(fields)
  {
    data := map[];
    for i := 0 to |fields|
      invariant data == Encode(fields[..i])
    {
      assert fields[..i + 1][..i] == fields[..i];
      var name, value := fields[i].name, fields[i].value;
      if value.DeletedAt? {
        continue;
      }
      var scalar: Scalar;
      if value.Pointer? {
        if value.target == None {
          data := data[name := ""];
          continue;
        }
        scalar := value.target.value;
      } else {
        scalar := value.v;
      }
      if scalar.Bool? {
        data := data[name := if scalar.b then "true" else "false"];
        continue;
      }
      data := data[name := PrintScalar(scalar)];
    }
    assert fields[..|fields|] == fields;
  }

  // ---------- decoding ----------

  /** strconv.ParseBool. */
  function ParseBool(s: string): Option<bool> {
    if s in ["1", "t", "T", "TRUE", "true", "True"] then Some(true)
    else if s in ["0", "f", "F", "FALSE", "false", "False"] then Some(false)
    else None
  }

  function DecodeScalar(kind: Kind, name: string, text: string): Result<Scalar, DecodeError> {
    match kind
    case StringKind => Ok(Str(text))
    case IntKind => (match Decimal.ParseInt(text) case Some(i) => Ok(Int(i)) case None => Err(BadInt(name)))
    case BoolKind => (match ParseBool(text) case Some(b) => Ok(Bool(b)) case None => Err(BadBool(name)))
    case Odd => Err(Unsupported(name))
  }

  /** The field after the decoder has seen its text. A nil pointer is set before its text is parsed, so a bad
      text leaves it pointing at a zero value. */
  function Decoded(f: Field, text: string, parseTime: TimeParser): (Field, Option<DecodeError>) {
    match f.value
    case Plain(v) =>
      (match DecodeScalar(KindOf(v), f.name, text)
       case Ok(s) => (f.(value := Plain(s)), None)
       case Err(e) => (f, Some(e)))
    case Pointer(kind, target) =>
      if text == "" then (f, None) else
        (match DecodeScalar(kind, f.name, text)
         case Ok(s) => (f.(value := Pointer(kind, Some(s))), None)
         case Err(e) => (if target == None then f.(value := Pointer(kind, Some(ZeroScalar(kind)))) else f, Some(e)))
    case DeletedAt(_) =>
      if text == "" then (f, None) else
        (match parseTime(text)
         case Some(t) => (f.(value := DeletedAt(Some(t))), None)
         case None => (f, Some(BadTime(f.name))))
  }

  function FieldAfter(f: Field, data: Hash, parseTime: TimeParser): (Field, Option<DecodeError>) {
    if f.name in data then Decoded(f, data[f.name], parseTime) else (f, None)
  }

  /** Fields are set in order; the first bad text stops with the later fields as they were. */
  function Decode(data: Hash, fields: seq<Field>, parseTime: TimeParser): (seq<Field>, Option<DecodeError>)
    decreases |fields|
  {
    if fields == [] then ([], None) else
      var (f, bad) := FieldAfter(fields[0], data, parseTime);
      if bad.Some? then ([f] + fields[1..], bad) else
        var (rest, err) := Decode(data, fields[1..], parseTime);
        ([f] + rest, err)
  }

  /** A key that Redis does not know reads as a hash without entries. */
  function Got(data: Hash, fields: seq<Field>, parseTime: TimeParser): (seq<Field>, Option<DecodeError>) {
    if data == map[] then (fields, Some(NotFound)) else Decode(data, fields, parseTime)
  }

  method ParseFields(result: Hash, obj: array<Field>, parseTime: TimeParser)
    returns (err: Option<DecodeError>)
    modifies obj
    ensures (obj[..], err) == Got(result, old(obj[..]), parseTime)
  {
    if |result| == 0 {
      return Some(NotFound);
    }
    ghost var before := obj[..];
    for i := 0 to obj.Length
      invariant obj[i..] == before[i..] && |before| == obj.Length
      invariant forall k :: 0 <= k < i ==> FieldAfter(before[k], result, parseTime) == (obj[k], None)
    {
      assert obj[i] == before[i];
      var f := obj[i];
      if f.name in result {
        var (decoded, bad) := Decoded(f, result[f.name], parseTime);
        obj[i] := decoded;
        if bad.Some? {
          DecodePrefix(result, before, obj[..i], parseTime);
          assert obj[..] == obj[..i] + ([decoded] + before[i + 1..]);
          assert before[i..][1..] == before[i + 1..];
          return bad;
        }
      }
    }
    DecodePrefix(result, before, obj[..], parseTime);
    assert before[obj.Length..] == [] && obj[..] + [] == obj[..];
    return None;
  }

  lemma {:induction false} DecodePrefix(data: Hash, fields: seq<Field>, done: seq<Field>, parseTime: TimeParser)
    requires |done| <= |fields|
    requires forall k :: 0 <= k < |done| ==> FieldAfter(fields[k], data, parseTime) == (done[k], None)
    ensures var (rest, err) := Decode(data, fields[|done|..], parseTime);
      Decode(data, fields, parseTime) == (done + rest, err)
    decreases |done|
  {
    hide FieldAfter;
    var (rest, err) := Decode(data, fields[|done|..], parseTime);
    if done == [] {
      assert fields[0..] == fields && done + rest == rest;
    } else {
      DecodePrefix(data, fields[1..], done[1..], parseTime);
      assert fields[1..][|done[1..]|..] == fields[|done|..];
      assert [done[0]] + (done[1..] + rest) == done + rest;
    }
  }

  // ---------- round trip ----------

  /** The zero value of the same type. */
  function Zero(f: Field): Field {
    f.(value := match f.value
      case Plain(v) => Plain(ZeroScalar(KindOf(v)))
      case Pointer(kind, _) => Pointer(kind, None)
      case DeletedAt(_) => DeletedAt(None))
  }

  function ZeroStruct(fields: seq<Field>): (zero: seq<Field>)
    ensures |zero| == |fields| && forall i :: 0 <= i < |fields| ==> zero[i] == Zero(fields[i])
  {
    seq(|fields|, i requires 0 <= i < |fields| => Zero(fields[i]))
  }

  /** What survives: a pointer to the empty string comes back nil, a deletion time is not kept. */
  function Kept(f: Field): Field {
    f.(value := match f.value
      case Plain(v) => f.value
      case Pointer(kind, target) => if target == Some(Str("")) then Pointer(kind, None) else f.value
      case DeletedAt(_) => DeletedAt(None))
  }

  function KeptStruct(fields: seq<Field>): (kept: seq<Field>)
    ensures |kept| == |fields| && forall i :: 0 <= i < |fields| ==> kept[i] == Kept(fields[i])
  {
    seq(|fields|, i requires 0 <= i < |fields| => Kept(fields[i]))
  }

  predicate GoodScalar(v: Scalar) {
    match v
    case Int(i) => Decimal.MIN_INT64 <= i <= Decimal.MAX_INT64
    case OddValue(_) => false
    case _ => true
  }

  /** The types the decoder handles, with 64-bit integers. */
  predicate Good(f: Field) {
    match f.value
    case Plain(v) => GoodScalar(v)
    case Pointer(kind, target) => target.Some? ==> GoodScalar(target.value) && KindOf(target.value) == kind
    case DeletedAt(_) => true
  }

  ghost predicate GoodStruct(fields: seq<Field>) {
    && (forall i :: 0 <= i < |fields| ==> Good(fields[i]))
    && (forall i, j :: 0 <= i < j < |fields| ==> fields[i].name != fields[j].name)
  }

  lemma ScalarRoundTrip(v: Scalar, name: string)
    requires GoodScalar(v)
    ensures DecodeScalar(KindOf(v), name, PrintScalar(v)) == Ok(v)
    ensures PrintScalar(v) == "" <==> v == Str("")
  {
    if v.Int? {
      Decimal.ParseUndoesPrint(v.i);
    }
  }

  lemma {:induction false} EncodeStores(fields: seq<Field>, i: nat)
    requires GoodStruct(fields) && i < |fields|
    ensures match Encoded(fields[i].value)
      case Some(text) => fields[i].name in Encode(fields) && Encode(fields)[fields[i].name] == text
      case None => fields[i].name !in Encode(fields)
    decreases |fields|
  {
    var n := |fields| - 1;
    if i < n {
      EncodeStores(fields[..n], i);
    } else {
      NameIsNew(fields[..n], fields[n].name);
    }
  }

  lemma {:induction false} NameIsNew(fields: seq<Field>, name: string)
    requires forall i :: 0 <= i < |fields| ==> fields[i].name != name
    ensures name !in Encode(fields)
  {
    if fields != [] {
      NameIsNew(fields[..|fields| - 1], name);
    }
  }

  /** The texts themselves: strings as they are, numbers in decimal, truth values as words, nil as nothing. */
  lemma StoredText(fields: seq<Field>, i: nat)
    requires GoodStruct(fields) && i < |fields|
    ensures var name, value, data := fields[i].name, fields[i].value, Encode(fields);
      && (value.DeletedAt? <==> name !in data)
      && (value.Pointer? && value.target == None ==> data[name] == "")
      && (!value.DeletedAt? && !(value.Pointer? && value.target == None) ==>
            match if value.Pointer? then value.target.value else value.v
            case Str(s) => data[name] == s
            case Int(n) => data[name] == Decimal.Print(n)
            case Bool(b) => data[name] == if b then "true" else "false"
            case OddValue(printed) => data[name] == printed)
  {
    EncodeStores(fields, i);
  }

  /** The key holds nothing under the name of a deletion time; nothing written here ever does. */
  ghost predicate NoDeletionTimes(before: Hash, fields: seq<Field>) {
    forall i :: 0 <= i < |fields| && fields[i].value.DeletedAt? ==> fields[i].name !in before
  }

  lemma {:induction false} WritingStoresNoDeletionTimes(before: Hash, fields: seq<Field>)
    requires GoodStruct(fields) && NoDeletionTimes(before, fields)
    ensures NoDeletionTimes(before + Encode(fields), fields)
  {
    forall i | 0 <= i < |fields| && fields[i].value.DeletedAt? ensures fields[i].name !in before + Encode(fields) {
      EncodeStores(fields, i);
    }
  }

  lemma {:induction false} FieldRoundTrip(before: Hash, fields: seq<Field>, i: nat, parseTime: TimeParser)
    requires GoodStruct(fields) && i < |fields| && NoDeletionTimes(before, fields)
    ensures FieldAfter(Zero(fields[i]), before + Encode(fields), parseTime) == (Kept(fields[i]), None)
  {
    EncodeStores(fields, i);
    match fields[i].value
    case Plain(v) => ScalarRoundTrip(v, fields[i].name);
    case Pointer(_, Some(v)) => ScalarRoundTrip(v, fields[i].name);
    case _ =>
  }

  lemma {:induction false} DecodeAll(data: Hash, zero: seq<Field>, kept: seq<Field>, parseTime: TimeParser)
    requires |zero| == |kept|
    requires forall i :: 0 <= i < |zero| ==> FieldAfter(zero[i], data, parseTime) == (kept[i], None)
    ensures Decode(data, zero, parseTime) == (kept, None)
    decreases |zero|
  {
    if zero != [] {
      DecodeAll(data, zero[1..], kept[1..], parseTime);
      assert kept == [kept[0]] + kept[1..];
    }
  }

  /** Only deletion times, which are not stored: the hash of such a struct has no entries. */
  ghost predicate StoresNothing(fields: seq<Field>) {
    forall i :: 0 <= i < |fields| ==> fields[i].value.DeletedAt?
  }

  lemma {:induction false} EncodesToNothing(fields: seq<Field>)
    ensures Encode(fields) == map[] <==> StoresNothing(fields)
  {
    if fields != [] {
      var n := |fields| - 1;
      EncodesToNothing(fields[..n]);
      if Encoded(fields[n].value).Some? {
        assert fields[n].name in Encode(fields);
      }
    }
  }

  /** Reading a written struct into a zero struct gives it back, up to `Kept`, whatever the key held before. */
  lemma {:induction false} StructRoundTrip(before: Hash, fields: seq<Field>, parseTime: TimeParser)
    requires GoodStruct(fields) && NoDeletionTimes(before, fields) && !StoresNothing(fields)
    ensures Got(before + Encode(fields), ZeroStruct(fields), parseTime) == (KeptStruct(fields), None)
  {
    EncodesToNothing(fields);
    var data := before + Encode(fields);
    assert data != map[] by {
      var name :| name in Encode(fields);
      assert name in data;
    }
    forall i | 0 <= i < |fields|
      ensures FieldAfter(ZeroStruct(fields)[i], data, parseTime) == (KeptStruct(fields)[i], None)
    {
      FieldRoundTrip(before, fields, i, parseTime);
    }
    DecodeAll(data, ZeroStruct(fields), KeptStruct(fields), parseTime);
  }

  predicate Lossy(f: Field) {
    match f.value
    case Pointer(_, target) => target == Some(Str(""))
    case DeletedAt(time) => time.Some?
    case Plain(_) => false
  }

  lemma KeptUnlessLossy(f: Field)
    ensures Kept(f) == f <==> !Lossy(f)
  {
  }

  lemma StructKeptUnlessLossy(fields: seq<Field>)
    ensures KeptStruct(fields) == fields <==> forall i :: 0 <= i < |fields| ==> !Lossy(fields[i])
  {
    hide Kept, Lossy;
    forall i | 0 <= i < |fields| ensures KeptStruct(fields)[i] == fields[i] <==> !Lossy(fields[i]) {
      KeptUnlessLossy(fields[i]);
    }
  }

  /** For every struct that can be written, the round trip is the identity exactly without a pointer to "" and
      without a deletion time. */
  lemma {:induction false} LosslessExactlyWhen(before: Hash, fields: seq<Field>, parseTime: TimeParser)
    requires GoodStruct(fields) && NoDeletionTimes(before, fields) && !StoresNothing(fields)
    ensures Got(before + Encode(fields), ZeroStruct(fields), parseTime) == (fields, None)
       <==> forall i :: 0 <= i < |fields| ==> !Lossy(fields[i])
  {
    hide GoodStruct, Got, Encode, Lossy, StoresNothing, NoDeletionTimes;
    StructRoundTrip(before, fields, parseTime);
    StructKeptUnlessLossy(fields);
  }

  // ---------- the key ----------

  lemma {:induction false} OnlyAMissingKeyIsNotFound(data: Hash, fields: seq<Field>, parseTime: TimeParser)
    ensures Decode(data, fields, parseTime).1 != Some(NotFound)
    decreases |fields|
  {
    if fields != [] {
      OnlyAMissingKeyIsNotFound(data, fields[1..], parseTime);
    }
  }

  datatype WriteError = NoFields | NotWritten

  /** One Redis key that holds a hash; an absent key holds no entries. */
  class HashKey {
    var hash: Hash

    /** HSET adds its fields to what the key holds, and needs at least one. `ok` says whether the transaction runs. */
    method HSet(data: Hash, ok: bool) returns (err: Option<WriteError>)
      modifies this
      ensures err == if data == map[] then Some(NoFields) else if ok then None else Some(NotWritten)
      ensures hash == if err == None then old(hash) + data else old(hash)
    {
      if |data| == 0 {
        return Some(NoFields);
      }
      if !ok {
        return Some(NotWritten);
      }
      hash := hash + data;
      return None;
    }

    method RedisHSetObj(fields: seq<Field>, ok: bool) returns (err: Option<WriteError>)
      modifies this
      ensures err == if StoresNothing(fields) then Some(NoFields) else if ok then None else Some(NotWritten)
      ensures hash == if err == None then old(hash) + Encode(fields) else old(hash)
    {
      var data := PrintFields(fields);
      EncodesToNothing(fields);
      err := HSet(data, ok);
    }

    method RedisHGetObj(obj: array<Field>, parseTime: TimeParser) returns (err: Option<DecodeError>)
      modifies obj
      ensures hash == old(hash)
      ensures err == Some(NotFound) <==> hash == map[]
      ensures hash == map[] ==> obj[..] == old(obj[..])
      ensures (obj[..], err) == Got(hash, old(obj[..]), parseTime)
    {
      var result := hash;
      OnlyAMissingKeyIsNotFound(result, obj[..], parseTime);
      err := ParseFields(result, obj, parseTime);
    }
  }

  /** Write, then read: the struct comes back up to `Kept`, and both calls succeed. */
  method WriteThenRead(key: HashKey, fields: seq<Field>, parseTime: TimeParser)
    returns (obj: array<Field>, written: Option<WriteError>, err: Option<DecodeError>)
    requires GoodStruct(fields) && NoDeletionTimes(key.hash, fields)
    modifies key
    ensures written == None <==> !StoresNothing(fields)
    ensures written == None ==> err == None && obj[..] == KeptStruct(fields)
    ensures NoDeletionTimes(key.hash, fields)
  {
    ghost var before := key.hash;
    WritingStoresNoDeletionTimes(before, fields);
    written := key.RedisHSetObj(fields, true);
    obj := new Field[|fields|](i requires 0 <= i < |fields| => Zero(fields[i]));
    assert obj[..] == ZeroStruct(fields);
    if written == None {
      StructRoundTrip(before, fields, parseTime);
    }
    err := key.RedisHGetObj(obj, parseTime);
  }
}

/**
 * The header map of ylong_http/src/headers.rs: names are normalised on their way in, and
 * two operations skip the checks because their callers made them.
 */
module HeaderMap {
  import opened Octets
  import opened HttpError

  type Name = seq<byte>

  datatype HeaderValue = HeaderValue(inner: seq<seq<byte>>, isSensitive: bool)

  type Table = map<Name, HeaderValue>

  // ---------------------------------------------------------------------------
  // Octet tables.
  // ---------------------------------------------------------------------------

  /** What an octet of a name is stored as; zero means that it is not accepted. */
  function HeaderChar(b: byte): byte {
    if 65 <= b <= 90 then b + 32
    else if 32 <= b <= 39 || 42 <= b <= 57 || 94 <= b <= 122 || b == 124 || b == 126 then b
    else 0
  }

  /** The octets of a token (section 5.6.2 of RFC 9110), which the HTTP/1 parser lets through in names. */
  predicate IsNameByte(b: byte) {
    || b == 33 || 35 <= b <= 39 || b == 42 || b == 43 || b == 45 || b == 46
    || 48 <= b <= 57 || 65 <= b <= 90 || 94 <= b <= 122 || b == 124 || b == 126
  }

  /** The octets which the HTTP/1 parser lets through in values. */
  predicate IsValueByte(b: byte) {
    b == 9 || 32 <= b <= 126 || 128 <= b
  }

  /** The octets the checked operations accept in values. */
  predicate IsValid(b: byte) {
    (32 <= b && b != 127) || b == 9
  }

  predicate IsUppercase(b: byte) {
    65 <= b <= 90
  }

  function ToLowercase(b: byte): byte {
    if IsUppercase(b) then b + 32 else b
  }

  /** An accepted octet is stored in lower case, and what is stored is accepted and stored as it is. */
  lemma HeaderCharFacts(b: byte)
    ensures HeaderChar(b) != 0 ==>
              && HeaderChar(b) == ToLowercase(b)
              && HeaderChar(HeaderChar(b)) == HeaderChar(b)
              && !IsUppercase(HeaderChar(b))
    ensures IsNameByte(b) ==> HeaderChar(b) != 0
    ensures IsValueByte(b) <==> IsValid(b)
    ensures HeaderChar(b) == b && b != 0 <==> HeaderChar(b) != 0 && !IsUppercase(b)
  {
  }

  /** Besides the octets of a token, names may have a space, a quotation mark, a comma and a slash. */
  lemma AcceptedOctets(b: byte)
    ensures HeaderChar(b) != 0 <==> IsNameByte(b) || b in {32, 34, 44, 47}
  {
  }

  predicate AcceptedName(name: Name) {
    forall i :: 0 <= i < |name| ==> HeaderChar(name[i]) != 0
  }

  predicate AcceptedValue(value: seq<byte>) {
    forall i :: 0 <= i < |value| ==> IsValid(value[i])
  }

  function Lowercase(name: Name): Name {
    seq(|name|, i requires 0 <= i < |name| => ToLowercase(name[i]))
  }

  /** The key under which a name is stored. */
  function Normalized(name: Name): Result<Name> {
    if AcceptedName(name) then Ok(Lowercase(name)) else InvalidInput
  }

  predicate HasUppercase(name: Name) {
    exists i :: 0 <= i < |name| && IsUppercase(name[i])
  }

  /** A key is stored as it is. */
  predicate IsKey(name: Name) {
    Normalized(name) == Ok(name)
  }

  lemma NormalizedIsKey(name: Name)
    requires AcceptedName(name)
    ensures IsKey(Lowercase(name))
  {
    var key := Lowercase(name);
    forall i | 0 <= i < |key| ensures HeaderChar(key[i]) != 0 && ToLowercase(key[i]) == key[i] {
      HeaderCharFacts(name[i]);
    }
    assert Lowercase(key) == key;
  }

  lemma KeyIff(name: Name)
    ensures IsKey(name) <==> AcceptedName(name) && !HasUppercase(name)
  {
    if !HasUppercase(name) {
      assert Lowercase(name) == name;
    }
    if IsKey(name) {
      forall i | 0 <= i < |name| ensures !IsUppercase(name[i]) {
        assert Lowercase(name)[i] == ToLowercase(name[i]);
      }
    }
  }

  // ---------------------------------------------------------------------------
  // What the operations do to a table.
  // ---------------------------------------------------------------------------

  function Plain(value: seq<byte>): HeaderValue {
    HeaderValue([value], false)
  }

  function Lookup(t: Table, key: Name): Option<HeaderValue> {
    if key in t then Some(t[key]) else None
  }

  /** A value joins those that are there already; the sensitivity mark stays. */
  function Joined(t: Table, key: Name, value: HeaderValue): Table {
    t[key := if key in t then t[key].(inner := t[key].inner + value.inner) else value]
  }

  function Without(t: Table, key: Name): Table {
    map k | k in t && k != key :: t[k]
  }

  function Inserted(t: Table, name: Name, value: seq<byte>): Result<Table> {
    var key :- Normalized(name);
    if AcceptedValue(value) then Ok(t[key := Plain(value)]) else InvalidInput
  }

  function Appended(t: Table, name: Name, value: seq<byte>): Result<Table> {
    var key :- Normalized(name);
    if AcceptedValue(value) then Ok(Joined(t, key, Plain(value))) else InvalidInput
  }

  /** The unchecked form: the name is only converted to lower case. */
  function AppendedValidated(t: Table, name: Name, value: seq<byte>): Table {
    Joined(t, Lowercase(name), Plain(value))
  }

  function Removed(t: Table, name: Name): Table {
    if AcceptedName(name) then Without(t, Lowercase(name)) else t
  }

  function Get(t: Table, name: Name): Option<HeaderValue> {
    if AcceptedName(name) then Lookup(t, Lowercase(name)) else None
  }

  /** The unchecked form: the name is taken for a key. */
  function GetLowercase(t: Table, name: Name): Option<HeaderValue> {
    Lookup(t, name)
  }

  /** Every key of a table is stored as it is. */
  ghost predicate KeysAreKeys(t: Table) {
    forall key :: key in t ==> IsKey(key)
  }

  // ---------------------------------------------------------------------------
  // The unchecked forms agree with the checked ones.
  // ---------------------------------------------------------------------------

  /** The unchecked `append` does what the checked one does if and only if the checked one would accept. */
  lemma ValidatedAgreesIff(t: Table, name: Name, value: seq<byte>)
    ensures Appended(t, name, value) == Ok(AppendedValidated(t, name, value))
            <==> AcceptedName(name) && AcceptedValue(value)
  {
  }

  /** The unchecked look-up finds what the checked one finds, except for a name in upper case that is there. */
  lemma LowercaseAgreesIff(t: Table, name: Name)
    requires KeysAreKeys(t)
    ensures GetLowercase(t, name) == Get(t, name) <==> !HasUppercase(name) || Get(t, name).None?
  {
    KeyIff(name);
    if !HasUppercase(name) && AcceptedName(name) {
      assert Lowercase(name) == name;
    }
  }

  // ---------------------------------------------------------------------------
  // Whole runs.
  // ---------------------------------------------------------------------------

  datatype Operation =
    | Insert(name: Name, value: seq<byte>)
    | Append(name: Name, value: seq<byte>)
    | AppendValidated(name: Name, value: seq<byte>)
    | Remove(name: Name)
    | Query(name: Name)
    | QueryLowercase(name: Name)

  /** What the callers of the unchecked forms promise. */
  ghost predicate Licensed(op: Operation) {
    match op
    case AppendValidated(name, value) =>
      && (forall i :: 0 <= i < |name| ==> IsNameByte(name[i]))
      && (forall i :: 0 <= i < |value| ==> IsValueByte(value[i]))
    case QueryLowercase(name) => !HasUppercase(name)
    case _ => true
  }

  /** The table after an operation. A refused operation changes nothing. */
  function After(t: Table, op: Operation): Table {
    match op
    case Insert(name, value) => (var r := Inserted(t, name, value); if r.Ok? then r.value else t)
    case Append(name, value) => (var r := Appended(t, name, value); if r.Ok? then r.value else t)
    case AppendValidated(name, value) => AppendedValidated(t, name, value)
    case Remove(name) => Removed(t, name)
    case Query(_) => t
    case QueryLowercase(_) => t
  }

  /** What a look-up answers. */
  function Answer(t: Table, op: Operation): Option<HeaderValue> {
    match op
    case Query(name) => Get(t, name)
    case QueryLowercase(name) => GetLowercase(t, name)
    case _ => None
  }

  function Answers(t: Table, ops: seq<Operation>): seq<Option<HeaderValue>>
    decreases |ops|
  {
    if ops == [] then [] else [Answer(t, ops[0])] + Answers(After(t, ops[0]), ops[1..])
  }

  function Final(t: Table, ops: seq<Operation>): Table
    decreases |ops|
  {
    if ops == [] then t else Final(After(t, ops[0]), ops[1..])
  }

  /** The checked form of an operation. */
  function Checked(op: Operation): Operation {
    match op
    case AppendValidated(name, value) => Append(name, value)
    case QueryLowercase(name) => Query(name)
    case _ => op
  }

  function AllChecked(ops: seq<Operation>): seq<Operation> {
    seq(|ops|, i requires 0 <= i < |ops| => Checked(ops[i]))
  }

  lemma LicensedIsAccepted(name: Name, value: seq<byte>)
    requires Licensed(AppendValidated(name, value))
    ensures AcceptedName(name) && AcceptedValue(value)
  {
    forall i | 0 <= i < |name| ensures HeaderChar(name[i]) != 0 {
      HeaderCharFacts(name[i]);
    }
  }

  lemma AfterKeepsKeys(t: Table, op: Operation)
    requires KeysAreKeys(t) && Licensed(op)
    ensures KeysAreKeys(After(t, op))
  {
    if (op.Insert? || op.Append? || op.AppendValidated?) && AcceptedName(op.name) {
      NormalizedIsKey(op.name);
    }
    if op.AppendValidated? {
      LicensedIsAccepted(op.name, op.value);
    }
  }

  lemma CheckedAgrees(t: Table, op: Operation)
    requires KeysAreKeys(t) && Licensed(op)
    ensures After(t, Checked(op)) == After(t, op) && Answer(t, Checked(op)) == Answer(t, op)
  {
    if op.AppendValidated? {
      LicensedIsAccepted(op.name, op.value);
      ValidatedAgreesIff(t, op.name, op.value);
    } else if op.QueryLowercase? {
      LowercaseAgreesIff(t, op.name);
    }
  }

  /** A run that uses the unchecked forms as licensed ends and answers as the run with checks throughout. */
  lemma {:induction false} FastRunAgrees(t: Table, ops: seq<Operation>)
    requires KeysAreKeys(t) && forall op :: op in ops ==> Licensed(op)
    ensures KeysAreKeys(Final(t, ops))
    ensures Final(t, ops) == Final(t, AllChecked(ops))
    ensures Answers(t, ops) == Answers(t, AllChecked(ops))
    decreases |ops|
  {
    if ops != [] {
      assert AllChecked(ops)[1..] == AllChecked(ops[1..]);
      AfterKeepsKeys(t, ops[0]);
      CheckedAgrees(t, ops[0]);
      FastRunAgrees(After(t, ops[0]), ops[1..]);
    }
  }

  // ---------------------------------------------------------------------------
  // The map itself.
  // ---------------------------------------------------------------------------

  /** The loop over the octets of a name. */
  method Normalize(input: Name) returns (r: Result<Name>)
    ensures r == Normalized(input)
  {
    var dst: Name := [];
    for i := 0 to |input|
      invariant dst == Lowercase(input[..i]) && AcceptedName(input[..i])
    {
      var b := HeaderChar(input[i]);
      if b == 0 {
        return InvalidInput;
      }
      HeaderCharFacts(input[i]);
      dst := dst + [b];
      assert input[..i + 1] == input[..i] + [input[i]];
    }
    assert input[..|input|] == input;
    return Ok(dst);
  }

  method MakeLowercase(bytes: Name) returns (r: Name)
    ensures r == Lowercase(bytes)
  {
    r := [];
    for i := 0 to |bytes|
      invariant r == Lowercase(bytes[..i])
    {
      r := r + [ToLowercase(bytes[i])];
      assert bytes[..i + 1] == bytes[..i] + [bytes[i]];
    }
    assert bytes[..|bytes|] == bytes;
  }

  method CheckValue(bytes: seq<byte>) returns (r: Result<HeaderValue>)
    ensures r == if AcceptedValue(bytes) then Ok(Plain(bytes)) else InvalidInput
  {
    for i := 0 to |bytes|
      invariant AcceptedValue(bytes[..i])
    {
      if !IsValid(bytes[i]) {
        return InvalidInput;
      }
      assert bytes[..i + 1] == bytes[..i] + [bytes[i]];
    }
    assert bytes[..|bytes|] == bytes;
    return Ok(Plain(bytes));
  }

  class Headers {
    var table: Table

    constructor ()
      ensures table == map[] && KeysAreKeys(table)
    {
      table := map[];
    }

    method GetValue(name: Name) returns (r: Option<HeaderValue>)
      ensures r == Get(table, name)
    {
      var key := Normalize(name);
      return if key.Ok? then Lookup(table, key.value) else None;
    }

    /** Finds an entry without checking the name. */
    method GetLowercaseValue(name: Name) returns (r: Option<HeaderValue>)
      requires KeysAreKeys(table) && !HasUppercase(name)
      ensures r == Get(table, name)
    {
      LowercaseAgreesIff(table, name);
      return Lookup(table, name);
    }

    /** The old value is handed back. */
    method InsertValue(name: Name, value: seq<byte>) returns (r: Result<Option<HeaderValue>>)
      requires KeysAreKeys(table)
      modifies this
      ensures KeysAreKeys(table) && table == After(old(table), Insert(name, value))
      ensures r == if Inserted(old(table), name, value).Ok? then Ok(Get(old(table), name)) else InvalidInput
    {
      AfterKeepsKeys(table, Insert(name, value));
      var key :- Normalize(name);
      var v :- CheckValue(value);
      r := Ok(Lookup(table, key));
      table := table[key := v];
    }

    method AppendValue(name: Name, value: seq<byte>) returns (r: Result<()>)
      requires KeysAreKeys(table)
      modifies this
      ensures KeysAreKeys(table) && table == After(old(table), Append(name, value))
      ensures r.Ok? <==> Appended(old(table), name, value).Ok?
    {
      AfterKeepsKeys(table, Append(name, value));
      var key :- Normalize(name);
      var v :- CheckValue(value);
      JoinEntry(key, v);
      return Ok(());
    }

    /** Appends without checking anything: the caller has. */
    method AppendValidatedH1(name: Name, value: seq<byte>)
      requires KeysAreKeys(table) && Licensed(AppendValidated(name, value))
      modifies this
      ensures KeysAreKeys(table) && Appended(old(table), name, value) == Ok(table)
    {
      AfterKeepsKeys(table, AppendValidated(name, value));
      LicensedIsAccepted(name, value);
      var key := MakeLowercase(name);
      JoinEntry(key, Plain(value));
    }

    method JoinEntry(key: Name, value: HeaderValue)
      modifies this
      ensures table == Joined(old(table), key, value)
    {
      if key in table {
        table := table[key := table[key].(inner := table[key].inner + value.inner)];
      } else {
        table := table[key := value];
      }
    }

    method RemoveValue(name: Name) returns (r: Option<HeaderValue>)
      requires KeysAreKeys(table)
      modifies this
      ensures KeysAreKeys(table) && table == Removed(old(table), name) && r == Get(old(table), name)
    {
      var key := Normalize(name);
      if key.InvalidInput? {
        return None;
      }
      r := Lookup(table, key.value);
      table := Without(table, key.value);
    }
  }
}

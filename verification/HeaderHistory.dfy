/** What the header map answers, told from the calls alone. */
module HeaderHistory {
  import opened Octets
  import opened HeaderMap

  predicate IsLetter(b: byte) {
    'a' as int <= b <= 'z' as int || 'A' as int <= b <= 'Z' as int
  }

  predicate IsDecimal(b: byte) {
    '0' as int <= b <= '9' as int
  }

  /** The octets of a token (section 5.6.2 of RFC 9110). */
  predicate IsTokenOctet(b: byte) {
    IsLetter(b) || IsDecimal(b) || b as char in "!#$%&'*+-.^_`|~"
  }

  /** Names may have four octets more. */
  predicate IsName(name: Name) {
    forall i :: 0 <= i < |name| ==> IsTokenOctet(name[i]) || name[i] as char in " \",/"
  }

  /** Values have no control octets but the tabulator. */
  predicate IsValue(value: seq<byte>) {
    forall i :: 0 <= i < |value| ==> (' ' as int <= value[i] && value[i] != 127) || value[i] == '\t' as int
  }

  predicate SameLetter(a: byte, b: byte) {
    a == b || (IsLetter(a) && IsLetter(b) && (a == b + 32 || b == a + 32))
  }

  /** The same name, in any letter case. */
  predicate SameName(a: Name, b: Name) {
    |a| == |b| && forall i :: 0 <= i < |a| ==> SameLetter(a[i], b[i])
  }

  // ---------------------------------------------------------------------------
  // What the calls say.
  // ---------------------------------------------------------------------------

  /** An accepted value is set under this name. */
  predicate Inserts(op: Operation, name: Name) {
    op.Insert? && SameName(op.name, name) && IsName(op.name) && IsValue(op.value)
  }

  /** A value is added under this name; the unchecked form accepts everything. */
  predicate Appends(op: Operation, name: Name) {
    || (op.Append? && SameName(op.name, name) && IsName(op.name) && IsValue(op.value))
    || (op.AppendValidated? && SameName(op.name, name))
  }

  predicate Removes(op: Operation, name: Name) {
    op.Remove? && SameName(op.name, name) && IsName(op.name)
  }

  /** From which call on the values under this name count: the last insert, or behind the last removal. */
  function Since(ops: seq<Operation>, name: Name): (n: nat)
    ensures n <= |ops|
  {
    if ops == [] then 0 else
    var last := |ops| - 1;
    if Inserts(ops[last], name) then last
    else if Removes(ops[last], name) then |ops|
    else Since(ops[..last], name)
  }

  /** The values given under this name from call `n` on, in the order of the calls. */
  function ValuesFrom(ops: seq<Operation>, name: Name, n: nat): seq<seq<byte>> {
    if |ops| <= n then [] else
    var last := |ops| - 1;
    ValuesFrom(ops[..last], name, n)
    + if Inserts(ops[last], name) || Appends(ops[last], name) then [ops[last].value] else []
  }

  function Told(ops: seq<Operation>, name: Name): Option<HeaderValue> {
    var values := ValuesFrom(ops, name, Since(ops, name));
    if values == [] then None else Some(HeaderValue(values, false))
  }

  // ---------------------------------------------------------------------------
  // It is what the map answers.
  // ---------------------------------------------------------------------------

  /** What the HTTP/1 parser lets through: tokens as names, and all that is accepted as values. */
  lemma ParserOctets(b: byte)
    ensures IsNameByte(b) <==> IsTokenOctet(b)
    ensures IsValueByte(b) <==> IsValue([b])
  {
    assert [b][0] == b;
  }

  lemma NameIff(name: Name)
    ensures AcceptedName(name) <==> IsName(name)
  {
  }

  lemma ValueIff(value: seq<byte>)
    ensures AcceptedValue(value) <==> IsValue(value)
  {
  }

  lemma SameNameIff(a: Name, b: Name)
    ensures SameName(a, b) <==> Lowercase(a) == Lowercase(b)
  {
    if Lowercase(a) == Lowercase(b) {
      assert |Lowercase(a)| == |a| && |Lowercase(b)| == |b|;
      forall i | 0 <= i < |a| ensures SameLetter(a[i], b[i]) {
        assert Lowercase(a)[i] == Lowercase(b)[i];
      }
    }
  }

  lemma {:induction false} FinalMore(t: Table, ops: seq<Operation>, op: Operation)
    ensures Final(t, ops + [op]) == After(Final(t, ops), op)
    decreases |ops|
  {
    if ops == [] {
      assert ops + [op] == [op] && [op][1..] == [];
    } else {
      assert (ops + [op])[1..] == ops[1..] + [op];
      FinalMore(After(t, ops[0]), ops[1..], op);
    }
  }

  /** One call, as a look-up under `key` sees it. */
  lemma LookupAfter(t: Table, op: Operation, name: Name)
    ensures var before, after := Lookup(t, Lowercase(name)), Lookup(After(t, op), Lowercase(name));
            after == if Inserts(op, name) then Some(HeaderValue([op.value], false))
                     else if Removes(op, name) then None
                     else if !Appends(op, name) then before
                     else if before.None? then Some(HeaderValue([op.value], false))
                     else Some(before.value.(inner := before.value.inner + [op.value]))
  {
    if !op.Query? && !op.QueryLowercase? {
      SameNameIff(op.name, name);
      NameIff(op.name);
    }
    if op.Insert? || op.Append? {
      ValueIff(op.value);
    }
  }

  lemma ToldMore(ops: seq<Operation>, op: Operation, name: Name)
    ensures var before, after := Told(ops, name), Told(ops + [op], name);
            after == if Inserts(op, name) then Some(HeaderValue([op.value], false))
                     else if Removes(op, name) then None
                     else if !Appends(op, name) then before
                     else if before.None? then Some(HeaderValue([op.value], false))
                     else Some(before.value.(inner := before.value.inner + [op.value]))
  {
    var all, n := ops + [op], Since(ops, name);
    var values := ValuesFrom(ops, name, n);
    assert all[..|ops|] == ops && all[|ops|] == op;
    if Inserts(op, name) {
      assert ValuesFrom(all, name, |ops|) == [] + [op.value] == [op.value];
    } else if !Removes(op, name) {
      assert ValuesFrom(all, name, n) == values + if Appends(op, name) then [op.value] else [];
      assert values + [] == values;
      if Appends(op, name) && values == [] {
        assert values + [op.value] == [op.value];
      }
    }
  }

  lemma {:induction false} FinalIsTold(ops: seq<Operation>, name: Name)
    ensures Lookup(Final(map[], ops), Lowercase(name)) == Told(ops, name)
    decreases |ops|
  {
    if ops != [] {
      var last := |ops| - 1;
      assert ops == ops[..last] + [ops[last]];
      FinalIsTold(ops[..last], name);
      FinalMore(map[], ops[..last], ops[last]);
      LookupAfter(Final(map[], ops[..last]), ops[last], name);
      ToldMore(ops[..last], ops[last], name);
    }
  }

  /**
   * After any run on a new map, what is found under a name, in any letter case, are the accepted values appended since
   * its last insert or removal, in the order of the calls, behind the inserted one. Calls on other names do not matter.
   */
  lemma GetIsTold(ops: seq<Operation>, name: Name)
    ensures Get(Final(map[], ops), name) == if IsName(name) then Told(ops, name) else None
  {
    NameIff(name);
    FinalIsTold(ops, name);
  }

  /** Keys never have upper case. */
  lemma {:induction false} KeysHaveNoUppercase(ops: seq<Operation>, key: Name)
    requires key in Final(map[], ops)
    ensures Lowercase(key) == key
    decreases |ops|
  {
    var last := |ops| - 1;
    assert ops == ops[..last] + [ops[last]];
    FinalMore(map[], ops[..last], ops[last]);
    if key in Final(map[], ops[..last]) {
      KeysHaveNoUppercase(ops[..last], key);
    } else {
      var name := ops[last].name;
      assert key == Lowercase(name);
      assert Lowercase(key) == key;
    }
  }

  lemma {:induction false} AnswersAre(t: Table, ops: seq<Operation>, i: nat)
    requires i < |ops|
    ensures |Answers(t, ops)| == |ops| && Answers(t, ops)[i] == Answer(Final(t, ops[..i]), ops[i])
    decreases |ops|
  {
    AnswersAreMany(t, ops);
    if i > 0 {
      AnswersAre(After(t, ops[0]), ops[1..], i - 1);
      assert ops[..i][1..] == ops[1..][..i - 1];
    }
  }

  lemma {:induction false} AnswersAreMany(t: Table, ops: seq<Operation>)
    ensures |Answers(t, ops)| == |ops|
    decreases |ops|
  {
    if ops != [] {
      AnswersAreMany(After(t, ops[0]), ops[1..]);
    }
  }

  /**
   * Over any run on a new map, look-up number `i` answers what the calls before it tell: the checked one under every
   * accepted name, and the unchecked one under every name without upper case.
   */
  lemma AnswersAreTold(ops: seq<Operation>, i: nat)
    requires i < |ops|
    ensures |Answers(map[], ops)| == |ops|
    ensures var answer, before := Answers(map[], ops)[i], ops[..i];
            match ops[i]
            case Query(name) => answer == if IsName(name) then Told(before, name) else None
            case QueryLowercase(name) => answer == if HasUppercase(name) then None else Told(before, name)
            case _ => answer == None
  {
    AnswersAre(map[], ops, i);
    if ops[i].Query? {
      GetIsTold(ops[..i], ops[i].name);
    } else if ops[i].QueryLowercase? {
      UncheckedIsTold(ops[..i], ops[i].name);
    }
  }

  lemma UppercaseChanges(name: Name)
    requires HasUppercase(name)
    ensures Lowercase(name) != name
  {
    var i :| 0 <= i < |name| && IsUppercase(name[i]);
    assert Lowercase(name)[i] != name[i];
  }

  lemma UncheckedIsTold(ops: seq<Operation>, name: Name)
    ensures GetLowercase(Final(map[], ops), name) == if HasUppercase(name) then None else Told(ops, name)
  {
    if HasUppercase(name) {
      UppercaseChanges(name);
      if name in Final(map[], ops) {
        KeysHaveNoUppercase(ops, name);
      }
    } else {
      assert Lowercase(name) == name;
      FinalIsTold(ops, name);
    }
  }

  lemma {:induction false} ToldInAnyCase(ops: seq<Operation>, a: Name, b: Name)
    requires SameName(a, b)
    ensures Told(ops, a) == Told(ops, b)
  {
    SameNameIff(a, b);
    FinalIsTold(ops, a);
    FinalIsTold(ops, b);
  }
}

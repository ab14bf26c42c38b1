/**
 The object-identifier parser of wifi-toggle.go (`stringToObjectIdentifier`):
 a dotted string such as ".1.3.6.1.2.1.31.1.1.1.1.3", as the SNMP library
 names the variables it walks, becomes the sequence of its integer
 components, or nothing at all (Go's `nil`) when one component is not an integer.
 */
module ObjectIdentifiers {
  import opened Wrappers
  import opened GoStrings

  /** `asn1.ObjectIdentifier`: a slice of Go `int`s, here unbounded. */
  type ObjectIdentifier = seq<int>

  /** Converts every piece with Atoi; fails as a whole if one piece fails. */
  function ParseParts(parts: seq<string>): (r: Option<ObjectIdentifier>)
    ensures r.Some? ==> |r.value| == |parts|
  {
    if parts == [] then Some([])
    else
      match (Atoi(parts[0]), ParseParts(parts[1..]))
      case (Some(n), Some(ns)) => Some([n] + ns)
      case _ => None
  }

  /**
   ParseParts succeeds exactly when every piece converts, and then holds each
   piece's value at that piece's position.
   */
  lemma {:induction false} ParsePartsSpec(parts: seq<string>)
    ensures ParseParts(parts).Some? <==> forall i :: 0 <= i < |parts| ==> Atoi(parts[i]).Some?
    ensures ParseParts(parts).Some? ==>
              forall i :: 0 <= i < |parts| ==> Atoi(parts[i]) == Some(ParseParts(parts).value[i])
    decreases |parts|
  {
    if parts != [] {
      ParsePartsSpec(parts[1..]);
      assert forall j :: 0 <= j < |parts| - 1 ==> parts[1..][j] == parts[j + 1];
    }
  }

  /** What `stringToObjectIdentifier(oid)` returns: trim the dots, split, convert. */
  function ParseOid(oid: string): (r: Option<ObjectIdentifier>)
    ensures r.Some? ==> |r.value| >= 1
  {
    ParseParts(Split(Trim(oid, '.'), '.'))
  }

  /**
   `stringToObjectIdentifier`'s loop: the pieces are converted one after another into a slice
   of the same length, and the first piece that Atoi rejects ends the parse
   with no partial result.
   */
  method ConvertParts(parts: seq<string>) returns (r: Option<ObjectIdentifier>)
    ensures r == ParseParts(parts)
  {
    ParsePartsSpec(parts);
    var ids := new int[|parts|];
    for i := 0 to |parts|
      invariant forall k :: 0 <= k < i ==> Atoi(parts[k]) == Some(ids[k])
    {
      var n := Atoi(parts[i]);
      if n.None? {
        return None;
      }
      ids[i] := n.value;
    }
    assert ParseParts(parts).value == ids[..];
    r := Some(ids[..]);
  }

  /** `stringToObjectIdentifier`: trim the dots, split at the dots, convert the pieces. */
  method StringToObjectIdentifier(oid: string) returns (r: Option<ObjectIdentifier>)
    ensures r == ParseOid(oid)
  {
    var trimmed := Trim(oid, '.');
    var parts := Split(trimmed, '.');
    r := ConvertParts(parts);
  }

  /** The last component, used as the record index of a walked variable. */
  function LastComponent(oid: ObjectIdentifier): int
    requires |oid| >= 1
  {
    oid[|oid| - 1]
  }

  // ---------------------------------------------------------------------------
  // Properties of the parser
  // ---------------------------------------------------------------------------

  /**
   A successful parse has one integer per piece of the trimmed string, in
   order, each the value of its piece; and any such sequence is what is returned.
   */
  lemma ParseOidSucceeds(oid: string, ids: ObjectIdentifier)
    ensures ParseOid(oid) == Some(ids) <==>
            var parts := Split(Trim(oid, '.'), '.');
            |ids| == |parts| && forall i :: 0 <= i < |parts| ==> Atoi(parts[i]) == Some(ids[i])
  {
    var parts := Split(Trim(oid, '.'), '.');
    ParsePartsSpec(parts);
    if |ids| == |parts| && forall i :: 0 <= i < |parts| ==> Atoi(parts[i]) == Some(ids[i]) {
      assert ParseOid(oid).Some?;
      assert ParseOid(oid).value == ids;
    }
  }

  /** Only the trimmed string matters: leading and trailing dots are ignored. */
  lemma ParseOidIgnoresTrim(oid: string)
    ensures ParseOid(Trim(oid, '.')) == ParseOid(oid)
  {
    TrimIdempotent(oid, '.');
  }

  lemma ParseOidIgnoresLeadingDot(oid: string)
    ensures ParseOid("." + oid) == ParseOid(oid)
  {
    TrimLeadingSeparator(oid, '.');
  }

  lemma ParseOidIgnoresTrailingDot(oid: string)
    ensures ParseOid(oid + ".") == ParseOid(oid)
  {
    TrimTrailingSeparator(oid, '.');
  }

  lemma ParseOidIgnoresOuterDots(oid: string)
    ensures ParseOid("." + oid + ".") == ParseOid(oid)
  {
    TrimTrailingSeparator(oid, '.');
    TrimLeadingSeparator(oid + ".", '.');
    assert "." + oid + "." == ['.'] + (oid + ['.']);
    assert Trim("." + oid + ".", '.') == Trim(oid, '.');
  }

  /** The empty string and a string of dots only are not identifiers. */
  lemma {:induction false} ParseOidRejectsEmpty(oid: string)
    requires forall k :: 0 <= k < |oid| ==> oid[k] == '.'
    ensures ParseOid(oid) == None
  {
    TrimLeftDropsSeparators(oid, '.');
    var t := Trim(oid, '.');
    assert TrimLeft(oid, '.') == [];
    assert t == [];
    assert Split(t, '.') == [[]];
    assert Atoi([]) == None;
  }

  /** Two adjacent dots inside the trimmed string give an empty piece: the parse fails. */
  lemma ParseOidRejectsEmptyPart(oid: string, a: string, b: string)
    requires Trim(oid, '.') == a + ".." + b
    ensures ParseOid(oid) == None
  {
    var tail := ['.'] + b;
    assert a + ".." + b == a + ['.'] + tail;
    SplitAtSeparator(a, tail, '.');
    assert tail[1..] == b;
    assert Split(tail, '.') == [[]] + Split(b, '.');
    var parts := Split(Trim(oid, '.'), '.');
    assert parts == Split(a, '.') + ([[]] + Split(b, '.'));
    var i := |Split(a, '.')|;
    ParsePartsSpec(parts);
    assert parts[i] == [];
    assert Atoi(parts[i]).None?;
  }

  /** A piece with a character other than a digit (or a leading sign) fails the whole parse. */
  lemma ParseOidRejectsNonDigit(oid: string, i: nat, k: nat)
    requires i < |Split(Trim(oid, '.'), '.')|
    requires var part := Split(Trim(oid, '.'), '.')[i];
             k < |part| && !IsDigit(part[k]) && !(k == 0 && IsSign(part[k]))
    ensures ParseOid(oid) == None
  {
    var parts := Split(Trim(oid, '.'), '.');
    AtoiSpec(parts[i]);
    ParsePartsSpec(parts);
  }

  lemma ParsePartsAppend(p: seq<string>, q: seq<string>)
    ensures ParseParts(p + q) ==
            if ParseParts(p).Some? && ParseParts(q).Some? then Some(ParseParts(p).value + ParseParts(q).value) else None
  {
    var pq := p + q;
    ParsePartsSpec(p);
    ParsePartsSpec(q);
    ParsePartsSpec(pq);
    assert forall i :: 0 <= i < |p| ==> pq[i] == p[i];
    assert forall i :: 0 <= i < |q| ==> pq[|p| + i] == q[i];
    if ParseParts(p).Some? && ParseParts(q).Some? {
      var ids := ParseParts(p).value + ParseParts(q).value;
      forall i | 0 <= i < |pq|
        ensures Atoi(pq[i]) == Some(ids[i])
      {
        if i >= |p| {
          assert pq[i] == q[i - |p|];
        }
      }
      assert ParseParts(pq).value == ids;
    } else if ParseParts(p).None? {
      var i :| 0 <= i < |p| && Atoi(p[i]).None?;
      assert Atoi(pq[i]).None?;
    } else {
      var i :| 0 <= i < |q| && Atoi(q[i]).None?;
      assert Atoi(pq[|p| + i]).None?;
    }
  }

  /**
   Two dotted strings without outer dots, joined by one dot, parse to the
   concatenation of their identifiers (and fail if either fails).
   */
  lemma ParseOidJoin(x: string, y: string)
    requires x != [] && x[0] != '.' && x[|x| - 1] != '.'
    requires y != [] && y[0] != '.' && y[|y| - 1] != '.'
    ensures ParseOid(x + "." + y) ==
            if ParseOid(x).Some? && ParseOid(y).Some? then Some(ParseOid(x).value + ParseOid(y).value) else None
  {
    var xy := x + "." + y;
    assert xy[0] == x[0] && xy[|xy| - 1] == y[|y| - 1];
    TrimOfTrimmed(xy, '.');
    TrimOfTrimmed(x, '.');
    TrimOfTrimmed(y, '.');
    SplitAtSeparator(x, y, '.');
    ParsePartsAppend(Split(x, '.'), Split(y, '.'));
  }

  // ---------------------------------------------------------------------------
  // Printing an identifier, and the round trip
  // ---------------------------------------------------------------------------

  function ItoaAll(ids: seq<int>): (parts: seq<string>)
    ensures |parts| == |ids|
    ensures forall i :: 0 <= i < |ids| ==> parts[i] == Itoa(ids[i])
  {
    if ids == [] then [] else [Itoa(ids[0])] + ItoaAll(ids[1..])
  }

  /** The dotted decimal form of an identifier, without outer dots. */
  function FormatOid(ids: ObjectIdentifier): string
  {
    Join(ItoaAll(ids), '.')
  }

  lemma {:induction false} FormatOidEnds(ids: ObjectIdentifier)
    requires |ids| >= 1
    ensures var s := FormatOid(ids); s != [] && s[0] != '.' && s[|s| - 1] != '.'
    decreases |ids|
  {
    var parts := ItoaAll(ids);
    if |ids| > 1 {
      assert ItoaAll(ids[1..]) == parts[1..];
      FormatOidEnds(ids[1..]);
    }
  }

  /** Appending a component appends a dot and its decimal form. */
  lemma FormatOidSnoc(ids: ObjectIdentifier, n: int)
    requires |ids| >= 1
    ensures FormatOid(ids + [n]) == FormatOid(ids) + "." + Itoa(n)
  {
    assert ItoaAll(ids + [n]) == ItoaAll(ids) + [Itoa(n)];
    JoinAppend(ItoaAll(ids), [Itoa(n)], '.');
  }

  /** Parsing undoes printing, for every non-empty identifier. */
  lemma ParseFormat(ids: ObjectIdentifier)
    requires |ids| >= 1
    ensures ParseOid(FormatOid(ids)) == Some(ids)
  {
    var parts := ItoaAll(ids);
    FormatOidEnds(ids);
    TrimOfTrimmed(FormatOid(ids), '.');
    SplitJoin(parts, '.');
    forall i | 0 <= i < |ids|
      ensures Atoi(parts[i]) == Some(ids[i])
    {
      AtoiItoa(ids[i]);
    }
    ParsePartsSpec(parts);
    assert ParseParts(parts).value == ids;
  }

  /**
   One step of printing an identifier component by component: the form of
   `ids[..k + 1]` is the form of `ids[..k]`, a dot and the k-th component.
   */
  lemma FormatOidStep(ids: ObjectIdentifier, k: nat, s: string, n: int, t: string)
    requires 1 <= k < |ids| && FormatOid(ids[..k]) == s && ids[k] == n && Itoa(n) == t
    ensures FormatOid(ids[..k + 1]) == s + "." + t
  {
    assert ids[..k + 1] == ids[..k] + [ids[k]];
    FormatOidSnoc(ids[..k], ids[k]);
  }

  lemma FormatOidFirst(ids: ObjectIdentifier, n: int, t: string)
    requires |ids| >= 1 && ids[0] == n && Itoa(n) == t
    ensures FormatOid(ids[..1]) == t
  {
    assert ItoaAll(ids[..1]) == [Itoa(n)];
  }

  // ---------------------------------------------------------------------------
  // Examples
  // ---------------------------------------------------------------------------

  // The examples take their literals as parameters pinned by a `requires`, and
  // print identifiers a few components per lemma: handed a literal directly,
  // the verifier unfolds Trim, Split and Atoi over every character at once,
  // which costs far more than these component-by-component steps.

  lemma ExamplePlainFormat(ids: ObjectIdentifier)
    requires ids == [1, 2, 3]
    ensures FormatOid(ids[..3]) == "1.2.3"
  {
    FormatOidFirst(ids, 1, "1");
    FormatOidStep(ids, 1, "1", 2, "2");
    FormatOidStep(ids, 2, "1.2", 3, "3");
  }

  lemma ExamplePlain(s: string, ids: ObjectIdentifier)
    requires s == "1.2.3" && ids == [1, 2, 3]
    ensures ParseOid(s) == Some(ids)
  {
    ExamplePlainFormat(ids);
    assert ids[..3] == ids;
    ParseFormat(ids);
  }

  lemma ExampleOuterDots(s: string)
    requires s == "1.2.3"
    ensures ParseOid("." + s + ".") == ParseOid(s) == Some([1, 2, 3])
  {
    ExamplePlain(s, [1, 2, 3]);
    ParseOidIgnoresOuterDots(s);
  }

  const InterfaceNameExample: ObjectIdentifier := [1, 3, 6, 1, 2, 1, 31, 1, 1, 1, 1, 3]

  lemma InterfaceNameExampleHead(ids: ObjectIdentifier)
    requires ids == InterfaceNameExample
    ensures FormatOid(ids[..6]) == "1.3.6.1.2.1"
  {
    FormatOidFirst(ids, 1, "1");
    FormatOidStep(ids, 1, "1", 3, "3");
    FormatOidStep(ids, 2, "1.3", 6, "6");
    FormatOidStep(ids, 3, "1.3.6", 1, "1");
    FormatOidStep(ids, 4, "1.3.6.1", 2, "2");
    FormatOidStep(ids, 5, "1.3.6.1.2", 1, "1");
  }

  lemma InterfaceNameExampleMiddle(ids: ObjectIdentifier)
    requires ids == InterfaceNameExample
    ensures FormatOid(ids[..9]) == "1.3.6.1.2.1.31.1.1"
  {
    InterfaceNameExampleHead(ids);
    FormatOidStep(ids, 6, "1.3.6.1.2.1", 31, "31");
    FormatOidStep(ids, 7, "1.3.6.1.2.1.31", 1, "1");
    FormatOidStep(ids, 8, "1.3.6.1.2.1.31.1", 1, "1");
  }

  lemma InterfaceNameExampleAll(ids: ObjectIdentifier)
    requires ids == InterfaceNameExample
    ensures FormatOid(ids[..12]) == "1.3.6.1.2.1.31.1.1.1.1.3"
  {
    InterfaceNameExampleMiddle(ids);
    FormatOidStep(ids, 9, "1.3.6.1.2.1.31.1.1", 1, "1");
    FormatOidStep(ids, 10, "1.3.6.1.2.1.31.1.1.1", 1, "1");
    FormatOidStep(ids, 11, "1.3.6.1.2.1.31.1.1.1.1", 3, "3");
  }

  lemma ExampleInterfaceName(oid: string)
    requires oid == "1.3.6.1.2.1.31.1.1.1.1.3"
    ensures ParseOid(oid) == Some([1, 3, 6, 1, 2, 1, 31, 1, 1, 1, 1, 3])
    ensures LastComponent(ParseOid(oid).value) == 3
  {
    InterfaceNameExampleAll(InterfaceNameExample);
    assert InterfaceNameExample[..12] == InterfaceNameExample;
    ParseFormat(InterfaceNameExample);
  }

  lemma ExampleFailures()
    ensures ParseOid("1..2") == None
    ensures ParseOid("") == None && ParseOid("...") == None
  {
    TrimOfTrimmed("1..2", '.');
    assert "1..2" == "1" + ".." + "2";
    ParseOidRejectsEmptyPart("1..2", "1", "2");
    ParseOidRejectsEmpty("");
    ParseOidRejectsEmpty("...");
  }
}

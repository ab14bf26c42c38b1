/**
 Models of the functions of Go's `strings` and `strconv` packages that the
 object-identifier parser of wifi-toggle.go calls: `strings.Trim` with a
 one-character cutset, `strings.Split` on a one-character separator, and
 `strconv.Atoi` on unbounded integers. Their printing counterparts
 `strings.Join` and `strconv.Itoa` are not called by the parser; they are here
 to state the round trips (Split after Join, Atoi after Itoa), and Itoa is also
 the decimal form in which the page prints a script index.
 */
module GoStrings {
  import opened Wrappers

  // ---------------------------------------------------------------------------
  // strings.Trim
  // ---------------------------------------------------------------------------

  /** `strings.TrimLeft(s, string(c))`: drops every leading `c`. */
  function TrimLeft(s: string, c: char): (r: string)
    ensures |r| <= |s|
    ensures r == [] || r[0] != c
  {
    if |s| > 0 && s[0] == c then TrimLeft(s[1..], c) else s
  }

  /** `strings.TrimRight(s, string(c))`: drops every trailing `c`. */
  function TrimRight(s: string, c: char): (r: string)
    ensures r <= s
    ensures r == [] || r[|r| - 1] != c
  {
    if |s| > 0 && s[|s| - 1] == c then TrimRight(s[..|s| - 1], c) else s
  }

  /** TrimLeft leaves a suffix of `s`; what it drops is all `c`. */
  lemma {:induction false} TrimLeftDropsSeparators(s: string, c: char)
    ensures TrimLeft(s, c) == s[|s| - |TrimLeft(s, c)|..]
    ensures forall k :: 0 <= k < |s| - |TrimLeft(s, c)| ==> s[k] == c
    decreases |s|
  {
    if |s| > 0 && s[0] == c {
      TrimLeftDropsSeparators(s[1..], c);
      assert forall k :: 1 <= k < |s| ==> s[1..][k - 1] == s[k];
    }
  }

  /** TrimRight leaves a prefix of `s`; what it drops is all `c`. */
  lemma {:induction false} TrimRightDropsSeparators(s: string, c: char)
    ensures forall k :: |TrimRight(s, c)| <= k < |s| ==> s[k] == c
    decreases |s|
  {
    if |s| > 0 && s[|s| - 1] == c {
      TrimRightDropsSeparators(s[..|s| - 1], c);
    }
  }

  /**
   `strings.Trim(s, string(c))`: the middle of `s` left once every leading and
   every trailing `c` is removed.
   */
  function Trim(s: string, c: char): (r: string)
    ensures r == [] || (r[0] != c && r[|r| - 1] != c)
  {
    TrimRight(TrimLeft(s, c), c)
  }

  /** What Trim removes is made of `c` only: `s` is some `c`s, then the result, then some `c`s. */
  lemma TrimMargins(s: string, c: char)
    ensures exists i, j :: 0 <= i <= j <= |s| && Trim(s, c) == s[i..j]
                           && (forall k :: 0 <= k < i ==> s[k] == c)
                           && (forall k :: j <= k < |s| ==> s[k] == c)
  {
    var left := TrimLeft(s, c);
    TrimLeftDropsSeparators(s, c);
    TrimRightDropsSeparators(left, c);
    var r := Trim(s, c);
    var i := |s| - |left|;
    assert r == s[i..i + |r|];
    assert forall k :: i + |r| <= k < |s| ==> s[k] == left[k - i];
  }

  lemma TrimOfTrimmed(s: string, c: char)
    requires s == [] || (s[0] != c && s[|s| - 1] != c)
    ensures Trim(s, c) == s
  {
  }

  /** Trimming is idempotent. */
  lemma TrimIdempotent(s: string, c: char)
    ensures Trim(Trim(s, c), c) == Trim(s, c)
  {
    TrimOfTrimmed(Trim(s, c), c);
  }

  lemma {:induction false} TrimLeftSnoc(s: string, c: char, d: char)
    ensures TrimLeft(s + [d], c) == if TrimLeft(s, c) == [] then TrimLeft([d], c) else TrimLeft(s, c) + [d]
    decreases |s|
  {
    if |s| > 0 && s[0] == c {
      assert (s + [d])[1..] == s[1..] + [d];
      TrimLeftSnoc(s[1..], c, d);
    }
  }

  /** An extra `c` in front of `s` makes no difference to the trimmed string. */
  lemma TrimLeadingSeparator(s: string, c: char)
    ensures Trim([c] + s, c) == Trim(s, c)
  {
    assert ([c] + s)[1..] == s;
    assert TrimLeft([c] + s, c) == TrimLeft(s, c);
  }

  /** An extra `c` behind `s` makes no difference to the trimmed string. */
  lemma TrimTrailingSeparator(s: string, c: char)
    ensures Trim(s + [c], c) == Trim(s, c)
  {
    TrimLeftSnoc(s, c, c);
    assert TrimLeft([c], c) == [];
    var left := TrimLeft(s, c);
    if left != [] {
      assert (left + [c])[..|left|] == left;
      assert TrimRight(left + [c], c) == TrimRight(left, c);
    }
  }

  // ---------------------------------------------------------------------------
  // strings.Split and strings.Join
  // ---------------------------------------------------------------------------

  /** `strings.Join(parts, string(sep))`. */
  function Join(parts: seq<string>, sep: char): string
  {
    if |parts| == 0 then []
    else if |parts| == 1 then parts[0]
    else parts[0] + [sep] + Join(parts[1..], sep)
  }

  /**
   `strings.Split(s, string(sep))`: the pieces of `s` between separators. As in
   Go, the empty string splits into one empty piece, and a separator at either
   end or two adjacent separators give empty pieces.
   */
  function Split(s: string, sep: char): (parts: seq<string>)
    ensures |parts| >= 1
  {
    if s == [] then [[]]
    else
      var rest := Split(s[1..], sep);
      if s[0] == sep then [[]] + rest
      else [[s[0]] + rest[0]] + rest[1..]
  }

  /** No piece holds the separator, and joining the pieces gives `s` back. */
  lemma {:induction false} SplitJoinsBack(s: string, sep: char)
    ensures forall i :: 0 <= i < |Split(s, sep)| ==> sep !in Split(s, sep)[i]
    ensures Join(Split(s, sep), sep) == s
    decreases |s|
  {
    if s != [] {
      var rest := Split(s[1..], sep);
      SplitJoinsBack(s[1..], sep);
      if s[0] == sep {
        assert Join([[]] + rest, sep) == [sep] + Join(rest, sep);
      } else {
        var parts := [[s[0]] + rest[0]] + rest[1..];
        assert |rest| > 1 ==> Join(rest, sep) == rest[0] + [sep] + Join(rest[1..], sep);
        assert parts[1..] == rest[1..];
      }
    }
  }

  lemma {:induction false} SplitWithoutSeparator(s: string, sep: char)
    requires sep !in s
    ensures Split(s, sep) == [s]
    decreases |s|
  {
    if s != [] {
      SplitWithoutSeparator(s[1..], sep);
      assert [s[0]] + s[1..] == s;
    }
  }

  /** Splitting at one separator: the pieces of each side, concatenated. */
  lemma {:induction false} SplitAtSeparator(x: string, y: string, sep: char)
    ensures Split(x + [sep] + y, sep) == Split(x, sep) + Split(y, sep)
    decreases |x|
  {
    if x == [] {
      assert ([] + [sep] + y)[1..] == y;
    } else {
      assert (x + [sep] + y)[1..] == x[1..] + [sep] + y;
      SplitAtSeparator(x[1..], y, sep);
    }
  }

  /** Join then Split gives the pieces back, provided none holds the separator. */
  lemma {:induction false} SplitJoin(parts: seq<string>, sep: char)
    requires |parts| >= 1
    requires forall i :: 0 <= i < |parts| ==> sep !in parts[i]
    ensures Split(Join(parts, sep), sep) == parts
    decreases |parts|
  {
    if |parts| == 1 {
      SplitWithoutSeparator(parts[0], sep);
    } else {
      SplitJoin(parts[1..], sep);
      SplitAtSeparator(parts[0], Join(parts[1..], sep), sep);
      SplitWithoutSeparator(parts[0], sep);
      assert [parts[0]] + parts[1..] == parts;
    }
  }

  /** Joining two non-empty lists of pieces puts one separator between them. */
  lemma {:induction false} JoinAppend(a: seq<string>, b: seq<string>, sep: char)
    requires |a| >= 1 && |b| >= 1
    ensures Join(a + b, sep) == Join(a, sep) + [sep] + Join(b, sep)
    decreases |a|
  {
    if |a| > 1 {
      assert (a + b)[1..] == a[1..] + b;
      JoinAppend(a[1..], b, sep);
    } else {
      assert (a + b)[1..] == b;
    }
  }

  // ---------------------------------------------------------------------------
  // strconv.Atoi and strconv.Itoa, on unbounded integers
  // ---------------------------------------------------------------------------

  predicate IsDigit(ch: char) { '0' <= ch <= '9' }

  predicate IsSign(ch: char) { ch == '+' || ch == '-' }

  predicate AllDigits(ds: string) { forall i :: 0 <= i < |ds| ==> IsDigit(ds[i]) }

  function DigitValue(ch: char): (d: nat)
    requires IsDigit(ch)
    ensures d < 10
  {
    ch as int - '0' as int
  }

  function DigitChar(d: nat): (ch: char)
    requires d < 10
    ensures IsDigit(ch) && DigitValue(ch) == d
  {
    ('0' as int + d) as char
  }

  /** The value of a string of decimal digits, most significant first. */
  function DecimalValue(ds: string): nat
    requires AllDigits(ds)
  {
    if ds == [] then 0
    else DecimalValue(ds[..|ds| - 1]) * 10 + DigitValue(ds[|ds| - 1])
  }

  /** One or more decimal digits, or failure. */
  function ParseUnsigned(ds: string): Option<nat>
  {
    if ds != [] && AllDigits(ds) then Some(DecimalValue(ds)) else None
  }

  /**
   `strconv.Atoi`: an optional `+` or `-` followed by one or more decimal
   digits. It fails on the empty string, on a lone sign and on any other
   character. Go's range check (ErrRange) is not modelled: integers are unbounded.
   */
  function Atoi(s: string): (r: Option<int>)
  {
    if |s| > 0 && IsSign(s[0]) then
      match ParseUnsigned(s[1..])
      case None => None
      case Some(n) => Some(if s[0] == '-' then -(n as int) else n as int)
    else
      ParseUnsigned(s)
  }

  /**
   Atoi fails exactly on the empty string, a lone sign, and a string with a
   character that is neither a digit nor a leading sign; a leading `-` gives
   a value at most zero, anything else a value at least zero.
   */
  lemma AtoiSpec(s: string)
    ensures Atoi(s).None? <==> (s == "" || s == "+" || s == "-" ||
                                exists i :: 0 <= i < |s| && !IsDigit(s[i]) && !(i == 0 && IsSign(s[i])))
    ensures Atoi(s).Some? && |s| > 0 && s[0] == '-' ==> Atoi(s).value <= 0
    ensures Atoi(s).Some? && |s| > 0 && s[0] != '-' ==> Atoi(s).value >= 0
  {
    assert forall i :: 1 <= i < |s| ==> s[1..][i - 1] == s[i];
  }

  /** The decimal digits of a natural number, without leading zeros. */
  function Digits(n: nat): (ds: string)
    ensures ds != [] && AllDigits(ds)
  {
    if n < 10 then [DigitChar(n)] else Digits(n / 10) + [DigitChar(n % 10)]
  }

  /** `strconv.Itoa`, which is also how a Go template prints an `int`. */
  function Itoa(n: int): (s: string)
    ensures s != [] && s[|s| - 1] != '.' && s[0] != '.'
    ensures '.' !in s
  {
    if n < 0 then "-" + Digits(-n) else Digits(n)
  }

  lemma {:induction false} DecimalValueOfDigits(n: nat)
    ensures DecimalValue(Digits(n)) == n
  {
    if n >= 10 {
      var ds := Digits(n);
      assert ds[..|ds| - 1] == Digits(n / 10);
      DecimalValueOfDigits(n / 10);
    }
  }

  /** Atoi undoes Itoa on every integer. */
  lemma AtoiItoa(n: int)
    ensures Atoi(Itoa(n)) == Some(n)
  {
    if n < 0 {
      assert Itoa(n)[1..] == Digits(-n);
      DecimalValueOfDigits(-n);
    } else {
      DecimalValueOfDigits(n);
    }
  }
}

/** The two Java string facilities the scene loader relies on:
    String.split(" ") (a one-character literal pattern) and
    Integer.valueOf(String) on decimal text. */
module JavaText {
  import opened Wrappers
  import opened JavaNum

  // ---------------------------------------------------------------------
  // Splitting on single spaces.

  /** The pieces between the spaces of s, empty ones included; there is
      always one more piece than there are spaces. */
  function Fields(s: string): (r: seq<string>)
    ensures |r| >= 1
    decreases |s|
  {
    if s == [] then [""]
    else
      var rest := Fields(s[1..]);
      if s[0] == ' ' then [""] + rest
      else [[s[0]] + rest[0]] + rest[1..]
  }

  /** The pieces joined back with single spaces. */
  function Join(ts: seq<string>): string
    requires |ts| >= 1
  {
    if |ts| == 1 then ts[0] else ts[0] + " " + Join(ts[1..])
  }

  predicate NoSpace(t: string) {
    ' ' !in t
  }

  /** Splitting loses nothing: joining the pieces gives the line back. */
  lemma {:induction false} JoinFields(s: string)
    ensures Join(Fields(s)) == s
    decreases |s|
  {
    if s != [] {
      JoinFields(s[1..]);
      var rest := Fields(s[1..]);
      if s[0] == ' ' {
        assert Fields(s) == [""] + rest;
        assert Fields(s)[1..] == rest;
      } else {
        var r := [[s[0]] + rest[0]] + rest[1..];
        if |rest| == 1 {
          assert Join(r) == [s[0]] + rest[0];
        } else {
          assert r[1..] == rest[1..];
          assert Join(rest) == rest[0] + " " + Join(rest[1..]);
        }
        assert s == [s[0]] + s[1..];
      }
    }
  }

  /** No piece contains a space. */
  lemma {:induction false} FieldsHaveNoSpace(s: string)
    ensures forall k :: 0 <= k < |Fields(s)| ==> NoSpace(Fields(s)[k])
    decreases |s|
  {
    if s != [] {
      FieldsHaveNoSpace(s[1..]);
      var rest := Fields(s[1..]);
      if s[0] != ' ' {
        var r := [[s[0]] + rest[0]] + rest[1..];
        assert r[0] == [s[0]] + rest[0];
        forall k | 1 <= k < |r|
          ensures NoSpace(r[k])
        {
          assert r[k] == rest[k];
        }
      }
    }
  }

  /** A space-free prefix is glued to the first piece of what follows. */
  lemma {:induction false} FieldsOfPrefix(a: string, t: string)
    requires NoSpace(a)
    ensures Fields(a + t) == [a + Fields(t)[0]] + Fields(t)[1..]
    decreases |a|
  {
    if a != [] {
      FieldsOfPrefix(a[1..], t);
      assert (a + t)[1..] == a[1..] + t;
      assert (a + t)[0] == a[0];
      assert [a[0]] + (a[1..] + Fields(t)[0]) == a + Fields(t)[0];
    } else {
      var f := Fields(t);
      assert a + t == t;
      assert a + f[0] == f[0];
      assert f == [f[0]] + f[1..];
    }
  }

  /** Splitting the join of space-free pieces gives the pieces back. */
  lemma {:induction false} FieldsJoin(ts: seq<string>)
    requires |ts| >= 1
    requires forall k :: 0 <= k < |ts| ==> NoSpace(ts[k])
    ensures Fields(Join(ts)) == ts
    decreases |ts|
  {
    if |ts| == 1 {
      FieldsOfPrefix(ts[0], "");
      assert ts[0] + "" == ts[0];
    } else {
      FieldsJoin(ts[1..]);
      var b := Join(ts[1..]);
      assert Fields(" " + b) == [""] + Fields(b) by {
        assert (" " + b)[1..] == b;
      }
      assert ts[0] + " " + b == ts[0] + (" " + b);
      FieldsOfPrefix(ts[0], " " + b);
      assert ts[0] + "" == ts[0];
    }
  }

  /** The pieces without the empty ones at the end. */
  function DropTrailingEmpty(ts: seq<string>): seq<string> {
    if ts != [] && ts[|ts| - 1] == "" then DropTrailingEmpty(ts[..|ts| - 1]) else ts
  }

  /** What is kept is a prefix ending in a non-empty piece, and what is
      dropped is all empty pieces. */
  lemma {:induction false} DropTrailingEmptyPrefix(ts: seq<string>)
    ensures var r := DropTrailingEmpty(ts);
            && |r| <= |ts| && r == ts[..|r|]
            && (|r| > 0 ==> r[|r| - 1] != "")
            && forall k :: |r| <= k < |ts| ==> ts[k] == ""
    decreases |ts|
  {
    if ts != [] && ts[|ts| - 1] == "" {
      var front := ts[..|ts| - 1];
      DropTrailingEmptyPrefix(front);
      var r := DropTrailingEmpty(front);
      assert ts[..|r|] == front[..|r|];
    }
  }

  /** String.split(" "): a line without a space is its own only piece (the
      empty line included); otherwise the pieces between single spaces,
      with the empty pieces at the end removed. */
  function JavaSplit(s: string): seq<string> {
    if ' ' !in s then [s] else DropTrailingEmpty(Fields(s))
  }

  /** The line without its trailing spaces. */
  function TrimRight(s: string): (t: string)
    ensures t <= s
    ensures t == [] || t[|t| - 1] != ' '
    ensures forall k :: |t| <= k < |s| ==> s[k] == ' '
  {
    if s != [] && s[|s| - 1] == ' ' then TrimRight(s[..|s| - 1]) else s
  }

  /** A trailing space adds one empty piece at the end. */
  lemma {:induction false} FieldsAppendSpace(t: string)
    ensures Fields(t + " ") == Fields(t) + [""]
    decreases |t|
  {
    if t == [] {
      assert t + " " == " ";
      assert Fields(" ") == [""] + Fields("");
    } else {
      FieldsAppendSpace(t[1..]);
      assert (t + " ")[1..] == t[1..] + " ";
      assert (t + " ")[0] == t[0];
    }
  }

  /** A line that ends in a character other than a space ends in a
      non-empty piece. */
  lemma {:induction false} LastFieldNonEmpty(t: string)
    requires t != [] && t[|t| - 1] != ' '
    ensures Fields(t)[|Fields(t)| - 1] != ""
    decreases |t|
  {
    if |t| == 1 {
      assert Fields(t) == [[t[0]] + Fields("")[0]] + Fields("")[1..];
    } else {
      LastFieldNonEmpty(t[1..]);
      var rest := Fields(t[1..]);
      if t[0] == ' ' {
        assert Fields(t) == [""] + rest;
      } else if |rest| > 1 {
        assert Fields(t) == [[t[0]] + rest[0]] + rest[1..];
        assert Fields(t)[|Fields(t)| - 1] == rest[|rest| - 1];
      }
    }
  }

  /** Trailing spaces only add empty pieces, which the split drops. */
  lemma {:induction false} DropTrailingSpaces(s: string)
    ensures DropTrailingEmpty(Fields(s)) == DropTrailingEmpty(Fields(TrimRight(s)))
    decreases |s|
  {
    if s != [] && s[|s| - 1] == ' ' {
      var front := s[..|s| - 1];
      assert s == front + " ";
      FieldsAppendSpace(front);
      var f := Fields(front);
      assert (f + [""])[..|f + [""]| - 1] == f;
      DropTrailingSpaces(front);
    }
  }

  /** String.split(" ") characterised without its definition: no piece
      holds a space; there are no pieces exactly when the line is non-empty
      and all spaces; otherwise the pieces joined with single spaces give
      the line without its trailing spaces, and the last piece is empty
      only for the empty line. */
  lemma JavaSplitSound(s: string)
    ensures forall k :: 0 <= k < |JavaSplit(s)| ==> NoSpace(JavaSplit(s)[k])
    ensures JavaSplit(s) == [] <==> s != [] && forall k :: 0 <= k < |s| ==> s[k] == ' '
    ensures JavaSplit(s) != [] ==> Join(JavaSplit(s)) == TrimRight(s)
    ensures s == [] ==> JavaSplit(s) == [""]
    ensures s != [] && JavaSplit(s) != [] ==> JavaSplit(s)[|JavaSplit(s)| - 1] != ""
  {
    JavaSplitPiecesNoSpace(s);
    JavaSplitEmpty(s);
    JavaSplitJoinTrimmed(s);
  }

  /** There are no pieces exactly when the line is non-empty and all
      spaces. */
  lemma JavaSplitEmpty(s: string)
    ensures JavaSplit(s) == [] <==> s != [] && forall k :: 0 <= k < |s| ==> s[k] == ' '
  {
    var t := TrimRight(s);
    if ' ' in s {
      JavaSplitOfTrimmed(s);
      if t != [] {
        LastFieldNonEmpty(t);
        assert s[|t| - 1] != ' ';
      }
    } else if s != [] {
      assert s[0] != ' ';
    }
  }

  /** A non-empty split joins back to the line without its trailing
      spaces and ends in a non-empty piece unless the line is empty. */
  lemma JavaSplitJoinTrimmed(s: string)
    ensures JavaSplit(s) != [] ==> Join(JavaSplit(s)) == TrimRight(s)
    ensures s != [] && JavaSplit(s) != [] ==> JavaSplit(s)[|JavaSplit(s)| - 1] != ""
  {
    var t := TrimRight(s);
    if ' ' !in s {
      assert JavaSplit(s) == [s];
      if s != [] {
        assert s[|s| - 1] != ' ';
      }
      assert t == s;
    } else {
      JavaSplitOfTrimmed(s);
      if t != [] {
        assert JavaSplit(s) == Fields(t);
        LastFieldNonEmpty(t);
        JoinFields(t);
      }
    }
  }

  /** No piece of a split holds a space. */
  lemma JavaSplitPiecesNoSpace(s: string)
    ensures forall k :: 0 <= k < |JavaSplit(s)| ==> NoSpace(JavaSplit(s)[k])
  {
    if ' ' in s {
      var fs := Fields(s);
      FieldsHaveNoSpace(s);
      DropTrailingEmptyPrefix(fs);
      var r := DropTrailingEmpty(fs);
      forall k | 0 <= k < |r| ensures NoSpace(r[k]) {
        assert r[k] == fs[k];
      }
    }
  }

  /** A line with a space splits into the fields of the line without its
      trailing spaces, or into nothing when only spaces remain. */
  lemma JavaSplitOfTrimmed(s: string)
    requires ' ' in s
    ensures TrimRight(s) == [] ==> JavaSplit(s) == []
    ensures TrimRight(s) != [] ==> JavaSplit(s) == Fields(TrimRight(s))
  {
    var t := TrimRight(s);
    DropTrailingSpaces(s);
    if t == [] {
      assert Fields(t) == [""];
      assert DropTrailingEmpty([""]) == DropTrailingEmpty([]);
    } else {
      LastFieldNonEmpty(t);
    }
  }

  /** Splitting the join of space-free pieces, the last one non-empty,
      gives the pieces back. */
  lemma JavaSplitJoin(ts: seq<string>)
    requires |ts| >= 1
    requires forall k :: 0 <= k < |ts| ==> NoSpace(ts[k])
    requires ts[|ts| - 1] != ""
    ensures JavaSplit(Join(ts)) == ts
  {
    FieldsJoin(ts);
    if |ts| == 1 {
      assert Join(ts) == ts[0];
    } else {
      assert Join(ts) == ts[0] + " " + Join(ts[1..]);
      assert Join(ts)[|ts[0]|] == ' ';
    }
  }

  // ---------------------------------------------------------------------
  // Decimal integers.

  function DigitValue(c: char): (d: Option<int>)
    ensures d.Some? <==> '0' <= c <= '9'
    ensures d.Some? ==> 0 <= d.value <= 9
  {
    if '0' <= c <= '9' then Some(c as int - '0' as int) else None
  }

  function DigitChar(d: int): (c: char)
    requires 0 <= d <= 9
    ensures DigitValue(c) == Some(d)
  {
    ('0' as int + d) as char
  }

  /** The value of a non-empty run of decimal digits. */
  function ParseDigits(s: string): (r: Option<nat>)
  {
    if |s| == 0 then None
    else
      var last := DigitValue(s[|s| - 1]);
      if last.None? then None
      else if |s| == 1 then Some(last.value)
      else
        var front := ParseDigits(s[..|s| - 1]);
        if front.None? then
          None
        else
          Some(front.value * 10 + last.value)
  }

  /** A run is accepted exactly when it is non-empty and every character
      is a decimal digit. */
  lemma {:induction false} ParseDigitsAccepts(s: string)
    ensures ParseDigits(s).Some? <==> |s| > 0 && forall k :: 0 <= k < |s| ==> DigitValue(s[k]).Some?
    decreases |s|
  {
    if |s| > 1 {
      var front := s[..|s| - 1];
      ParseDigitsAccepts(front);
      assert forall k :: 0 <= k < |s| - 1 ==> s[k] == front[k];
    }
  }

  /** Integer.valueOf on decimal text: an optional sign and at least one
      digit, with a value in the range of int; anything else is a
      NumberFormatException, which is None. */
  function ParseInt(s: string): (r: Option<int>)
    ensures r.Some? ==> IntMin <= r.value <= IntMax
    ensures r.Some? ==> |s| > 0 && (s[0] == '-' ==> r.value <= 0) && (s[0] != '-' ==> r.value >= 0)
  {
    if |s| == 0 then None
    else
      var signed := s[0] == '-' || s[0] == '+';
      var digits := if signed then s[1..] else s;
      match ParseDigits(digits)
      case None => None
      case Some(m) =>
        var v: int := if s[0] == '-' then 0 - m as int else m;
        if IntMin <= v <= IntMax then Some(v) else None
  }

  /** The texts Integer.valueOf accepts: an optional '+' or '-', then a
      non-empty run of decimal digits whose signed value fits in an int;
      the value is that run's number, negated after a '-'. Every other
      text, the empty one, a lone sign and any non-digit included, is a
      NumberFormatException. */
  lemma ParseIntAccepts(s: string)
    ensures var signed := |s| > 0 && (s[0] == '-' || s[0] == '+');
            var digits := if signed then s[1..] else s;
            && (ParseInt(s).Some? <==>
                  && |digits| > 0
                  && (forall k :: 0 <= k < |digits| ==> '0' <= digits[k] <= '9')
                  && ParseDigits(digits).Some?
                  && InIntRange(if s[0] == '-' then 0 - ParseDigits(digits).value else ParseDigits(digits).value))
            && (ParseInt(s).Some? ==>
                  ParseInt(s).value == if s[0] == '-' then 0 - ParseDigits(digits).value else ParseDigits(digits).value)
  {
    var signed := |s| > 0 && (s[0] == '-' || s[0] == '+');
    var digits := if signed then s[1..] else s;
    ParseDigitsAccepts(digits);
    if ParseDigits(digits).Some? {
      assert |s| > 0;
    }
    if |digits| > 0 && forall k :: 0 <= k < |digits| ==> '0' <= digits[k] <= '9' {
      assert forall k :: 0 <= k < |digits| ==> DigitValue(digits[k]).Some?;
    }
  }

  /** Text that is not canonical: a leading '+' and leading zeros are
      accepted; a lone sign and letters are not. */
  lemma ParseIntExamples()
    ensures ParseInt("+7") == Some(7)
    ensures ParseInt("007") == Some(7)
    ensures ParseInt("-0") == Some(0)
    ensures ParseInt("") == None
    ensures ParseInt("+") == None
    ensures ParseInt("-") == None
    ensures ParseInt("abc") == None
  {
    assert "+7"[1..] == "7";
    assert "007"[..2] == "00" && "00"[..1] == "0";
    assert "-0"[1..] == "0";
    assert "+"[1..] == "" && "-"[1..] == "";
    assert DigitValue("abc"[2]).None?;
  }

  /** The decimal text of a natural number, without leading zeros. */
  function NatToString(n: nat): (s: string)
    ensures |s| > 0 && forall k :: 0 <= k < |s| ==> DigitValue(s[k]).Some?
    ensures |s| > 1 ==> s[0] != '0'
  {
    if n < 10 then [DigitChar(n)] else NatToString(n / 10) + [DigitChar(n % 10)]
  }

  /** The text Integer.toString writes for an int. */
  function IntToString(n: int): (s: string)
    ensures |s| > 0 && NoSpace(s)
  {
    if n < 0 then "-" + NatToString(-n) else NatToString(n)
  }

  lemma {:induction false} ParseNatToString(n: nat)
    ensures ParseDigits(NatToString(n)) == Some(n)
  {
    if n >= 10 {
      ParseNatToString(n / 10);
      var s := NatToString(n);
      assert s[..|s| - 1] == NatToString(n / 10);
    }
  }

  /** Reading back the text of an int gives the int. */
  lemma ParseIntToString(n: int)
    requires IntMin <= n <= IntMax
    ensures ParseInt(IntToString(n)) == Some(n)
  {
    if n < 0 {
      var d := NatToString(-n);
      ParseNatToString(-n);
      assert IntToString(n) == "-" + d;
      assert ("-" + d)[0] == '-' && ("-" + d)[1..] == d;
    } else {
      var d := NatToString(n);
      ParseNatToString(n);
      assert IntToString(n) == d;
      assert DigitValue(d[0]).Some?;
    }
  }
}

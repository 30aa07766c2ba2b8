// cmd/migration-regression/main.go: quoteIdentifier, against the delimited identifier of
// section 5.2 of ISO/IEC 9075:1992. Strings are sequences of code points.
module Quote {
  import opened Wrappers

  const QUOTE := '"'

  function EscapeOne(c: char): string {
    if c == QUOTE then [QUOTE, QUOTE] else [c]
  }

  function Escape(value: string): string {
    if value == "" then "" else EscapeOne(value[0]) + Escape(value[1..])
  }

  lemma Regroup(a: string, b: string, c: string)
    ensures a + b + c == a + (b + c)
  {}

  lemma {:induction false} EscapeAppend(a: string, b: string)
    ensures Escape(a + b) == Escape(a) + Escape(b)
  {
    if a == "" {
      assert a + b == b;
    } else {
      EscapeAppend(a[1..], b);
      assert (a + b)[1..] == a[1..] + b;
      Regroup(EscapeOne(a[0]), Escape(a[1..]), Escape(b));
    }
  }

  method QuoteIdentifier(value: string) returns (quoted: string)
    ensures quoted == [QUOTE] + Escape(value) + [QUOTE]
    ensures ReadIdentifier(quoted) == if value == "" then None else Some((value, ""))
  {
    QuotedReadsBack(value, "");
    assert [QUOTE] + Escape(value) + [QUOTE] + "" == [QUOTE] + Escape(value) + [QUOTE];
    quoted := [QUOTE];
    for i := 0 to |value|
      invariant quoted == [QUOTE] + Escape(value[..i])
    {
      EscapeAppend(value[..i], [value[i]]);
      assert value[..i + 1] == value[..i] + [value[i]];
      assert Escape([value[i]]) == EscapeOne(value[i]);
      Regroup([QUOTE], Escape(value[..i]), EscapeOne(value[i]));
      if value[i] == QUOTE {
        quoted := quoted + [QUOTE, QUOTE];
        continue;
      }
      quoted := quoted + [value[i]];
    }
    assert value[..|value|] == value;
    quoted := quoted + [QUOTE];
  }

  // The reader of the standard. The body is a run of parts, a part being a character
  // that is no quote or a doubled quote; the first quote that is not doubled ends it.
  // Returns the value of the parts and the text after the closing quote.
  function ReadBody(s: string): Option<(string, string)> {
    if s == "" then None
    else if s[0] != QUOTE then
      match ReadBody(s[1..]) case None => None case Some((v, rest)) => Some(([s[0]] + v, rest))
    else if |s| >= 2 && s[1] == QUOTE then
      match ReadBody(s[2..]) case None => None case Some((v, rest)) => Some(([QUOTE] + v, rest))
    else Some(("", s[1..]))
  }

  // A delimited identifier has at least one part.
  function ReadIdentifier(s: string): Option<(string, string)> {
    if s == "" || s[0] != QUOTE then None
    else match ReadBody(s[1..])
      case None => None
      case Some((v, rest)) => if v == "" then None else Some((v, rest))
  }

  lemma {:induction false} ReadBodyOfEscape(value: string, rest: string)
    requires rest == "" || rest[0] != QUOTE
    ensures ReadBody(Escape(value) + [QUOTE] + rest) == Some((value, rest))
  {
    var s := Escape(value) + [QUOTE] + rest;
    if value == "" {
      assert s[1..] == rest;
    } else {
      ReadBodyOfEscape(value[1..], rest);
      var tail := Escape(value[1..]) + [QUOTE] + rest;
      assert value == [value[0]] + value[1..];
      if value[0] == QUOTE {
        assert s == [QUOTE, QUOTE] + tail;
        assert s[2..] == tail;
      } else {
        assert s == [value[0]] + tail;
        assert s[1..] == tail;
      }
    }
  }

  // Whatever follows (short of another quote), the quoted text is read as one delimited
  // identifier with the input as its value, exactly when the input is not empty.
  lemma QuotedReadsBack(value: string, rest: string)
    requires rest == "" || rest[0] != QUOTE
    ensures ReadIdentifier([QUOTE] + Escape(value) + [QUOTE] + rest) ==
      if value == "" then None else Some((value, rest))
  {
    ReadBodyOfEscape(value, rest);
    var body := Escape(value) + [QUOTE] + rest;
    Regroup([QUOTE], Escape(value), [QUOTE]);
    Regroup([QUOTE], Escape(value) + [QUOTE], rest);
    assert ([QUOTE] + body)[1..] == body;
  }
}

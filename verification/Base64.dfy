// Unpadded base64 as the repository uses it: sections 4 (standard alphabet) and
// 5 (URL-safe alphabet) of RFC 4648, with padding omitted as section 3.2 allows.
module Base64 {
  import opened Wrappers

  type Byte = b: int | 0 <= b < 256
  type Sextet = d: int | 0 <= d < 64

  datatype Alphabet = Standard | UrlSafe

  function Digit(a: Alphabet, d: Sextet): (c: char)
    ensures Value(a, c) == Some(d)
  {
    if d < 26 then ('A' as int + d) as char
    else if d < 52 then ('a' as int + d - 26) as char
    else if d < 62 then ('0' as int + d - 52) as char
    else if d == 62 then (if a.Standard? then '+' else '-')
    else (if a.Standard? then '/' else '_')
  }

  function Value(a: Alphabet, c: char): (d: Option<Sextet>)
  {
    if 'A' <= c <= 'Z' then Some(c as int - 'A' as int)
    else if 'a' <= c <= 'z' then Some(c as int - 'a' as int + 26)
    else if '0' <= c <= '9' then Some(c as int - '0' as int + 52)
    else if c == (if a.Standard? then '+' else '-') then Some(62)
    else if c == (if a.Standard? then '/' else '_') then Some(63)
    else None
  }

  // The groups of six bits of a byte string; a last group that is short is filled with zero bits.
  function Sextets(bs: seq<Byte>): seq<Sextet> {
    if |bs| == 0 then []
    else if |bs| == 1 then [bs[0] / 4, bs[0] % 4 * 16]
    else if |bs| == 2 then [bs[0] / 4, bs[0] % 4 * 16 + bs[1] / 16, bs[1] % 16 * 4]
    else [bs[0] / 4, bs[0] % 4 * 16 + bs[1] / 16, bs[1] % 16 * 4 + bs[2] / 64, bs[2] % 64] + Sextets(bs[3..])
  }

  // The decoder is not strict: leftover low bits of the last group are dropped, whatever they are.
  function Bytes(ds: seq<Sextet>): Option<seq<Byte>> {
    if |ds| == 0 then Some([])
    else if |ds| == 1 then None
    else
      var first: Byte := ds[0] as int * 4 + ds[1] as int / 16;
      if |ds| == 2 then Some([first])
      else
        var second: Byte := ds[1] as int % 16 * 16 + ds[2] as int / 4;
        if |ds| == 3 then Some([first, second])
        else match Bytes(ds[4..])
          case None => None
          case Some(rest) =>
            var third: Byte := ds[2] as int % 4 * 64 + ds[3] as int;
            Some([first, second, third] + rest)
  }

  function Letters(a: Alphabet, ds: seq<Sextet>): string {
    if ds == [] then "" else [Digit(a, ds[0])] + Letters(a, ds[1..])
  }

  // Carriage returns and line feeds are skipped; any other foreign character is an error.
  function Values(a: Alphabet, s: string): Option<seq<Sextet>> {
    if s == "" then Some([])
    else if s[0] == '\r' || s[0] == '\n' then Values(a, s[1..])
    else match (Value(a, s[0]), Values(a, s[1..]))
      case (Some(d), Some(ds)) => Some([d] + ds)
      case _ => None
  }

  function Encode(a: Alphabet, bs: seq<Byte>): string {
    Letters(a, Sextets(bs))
  }

  function Decode(a: Alphabet, s: string): Option<seq<Byte>> {
    match Values(a, s)
    case None => None
    case Some(ds) => Bytes(ds)
  }

  lemma {:induction false} BytesOfSextets(bs: seq<Byte>)
    ensures Bytes(Sextets(bs)) == Some(bs)
  {
    if |bs| >= 3 {
      BytesOfSextets(bs[3..]);
      assert Sextets(bs)[4..] == Sextets(bs[3..]);
      assert bs == [bs[0], bs[1], bs[2]] + bs[3..];
    } else if |bs| == 2 {
      assert bs == [bs[0], bs[1]];
    } else if |bs| == 1 {
      assert bs == [bs[0]];
    }
  }

  lemma ValuesCons(a: Alphabet, c: char, rest: string)
    requires Value(a, c).Some? && Values(a, rest).Some?
    ensures Values(a, [c] + rest) == Some([Value(a, c).value] + Values(a, rest).value)
  {
    assert ([c] + rest)[1..] == rest;
  }

  lemma {:induction false} ValuesOfLetters(a: Alphabet, ds: seq<Sextet>)
    ensures Values(a, Letters(a, ds)) == Some(ds)
  {
    if ds != [] {
      ValuesOfLetters(a, ds[1..]);
      ValuesCons(a, Digit(a, ds[0]), Letters(a, ds[1..]));
      assert ds == [ds[0]] + ds[1..];
    }
  }

  lemma RoundTrip(a: Alphabet, bs: seq<Byte>)
    ensures Decode(a, Encode(a, bs)) == Some(bs)
  {
    ValuesOfLetters(a, Sextets(bs));
    BytesOfSextets(bs);
  }

  lemma {:induction false} LettersShape(a: Alphabet, ds: seq<Sextet>)
    ensures |Letters(a, ds)| == |ds|
    ensures forall c | c in Letters(a, ds) :: Value(a, c).Some?
  {
    if ds != [] {
      LettersShape(a, ds[1..]);
    }
  }

  lemma {:induction false} SextetCount(bs: seq<Byte>)
    ensures |Sextets(bs)| == (4 * |bs| + 2) / 3
  {
    if |bs| >= 3 {
      SextetCount(bs[3..]);
    }
  }

  // The text has ceil(4n/3) characters, all of them from the alphabet.
  lemma EncodeShape(a: Alphabet, bs: seq<Byte>)
    ensures |Encode(a, bs)| == (4 * |bs| + 2) / 3
    ensures forall c | c in Encode(a, bs) :: Value(a, c).Some?
  {
    SextetCount(bs);
    LettersShape(a, Sextets(bs));
  }

  // ----- the groups of RFC 4648, and what the decoder takes -----

  // A group of three bytes and its four digits are the same number; short groups are filled with zero bits.
  lemma GroupsAreNumbers(x: Byte, y: Byte, z: Byte)
    ensures var d := Sextets([x, y, z]);
      |d| == 4 && ((d[0] as int * 64 + d[1] as int) * 64 + d[2] as int) * 64 + d[3] as int
                  == (x as int * 256 + y as int) * 256 + z as int
    ensures var d := Sextets([x, y]);
      |d| == 3 && (d[0] as int * 64 + d[1] as int) * 64 + d[2] as int == (x as int * 256 + y as int) * 4
    ensures var d := Sextets([x]);
      |d| == 2 && d[0] as int * 64 + d[1] as int == x as int * 16
  {
    assert Sextets([x, y, z][3..]) == [];
  }

  predicate IsNewline(c: char) { c == '\r' || c == '\n' }

  function Strip(s: string): string {
    if s == "" then "" else (if IsNewline(s[0]) then "" else [s[0]]) + Strip(s[1..])
  }

  lemma {:induction false} NewlinesAreSkipped(a: Alphabet, s: string)
    ensures Values(a, Strip(s)) == Values(a, s)
    ensures Values(a, s).Some? <==> forall c | c in s :: IsNewline(c) || Value(a, c).Some?
    ensures Values(a, s).Some? ==> |Values(a, s).value| == |Strip(s)|
  {
    if s != "" {
      NewlinesAreSkipped(a, s[1..]);
      assert s == [s[0]] + s[1..];
      assert Strip(s) == if IsNewline(s[0]) then Strip(s[1..]) else [s[0]] + Strip(s[1..]);
    }
  }

  lemma {:induction false} GroupsDecode(ds: seq<Sextet>)
    ensures Bytes(ds).Some? <==> |ds| % 4 != 1
  {
    if |ds| >= 4 { GroupsDecode(ds[4..]); }
  }

  // The decoder takes exactly the texts of letters and newlines whose letters do not leave a single one over,
  // and reads them as if the newlines were not there.
  lemma DecodesExactly(a: Alphabet, s: string)
    ensures Decode(a, s) == Decode(a, Strip(s))
    ensures Decode(a, s).Some? <==>
            (forall c | c in s :: IsNewline(c) || Value(a, c).Some?) && |Strip(s)| % 4 != 1
  {
    NewlinesAreSkipped(a, s);
    if Values(a, s).Some? { GroupsDecode(Values(a, s).value); }
  }
}

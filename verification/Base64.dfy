/** Unpadded base64 (sections 3.2 and 4 of RFC 4648), as Go's base64.RawStdEncoding reads and writes it. */
module Base64 {
  import opened Common
  import opened Text

  type Octet = c: char | c as int < 256 witness '\0'

  type Octets = seq<Octet>

  predicate IsOctets(s: string) { forall i :: 0 <= i < |s| ==> s[i] as int < 256 }

  /** []byte(s) for a text of octets. */
  function AsOctets(s: string): (b: Octets)
    requires IsOctets(s)
    ensures b == s
  {
    s
  }

  function Alphabet(v: nat): (c: Octet)
    requires v < 64
    ensures Sextet(c) == v
  {
    if v < 26 then 'A' + v as char
    else if v < 52 then 'a' + (v - 26) as char
    else if v < 62 then '0' + (v - 52) as char
    else if v == 62 then '+' else '/'
  }

  /** The value of a character of the alphabet, -1 for any other. */
  function Sextet(c: char): (v: int)
    ensures -1 <= v < 64
  {
    if 'A' <= c <= 'Z' then c as int - 'A' as int
    else if 'a' <= c <= 'z' then c as int - 'a' as int + 26
    else if '0' <= c <= '9' then c as int - '0' as int + 52
    else if c == '+' then 62
    else if c == '/' then 63
    else -1
  }

  /** The order of table 1 of RFC 4648: capitals, small letters, digits, plus and slash. */
  lemma AlphabetIsInOrder(v: nat)
    requires v < 63
    ensures Alphabet(0) == 'A' && Alphabet(25) == 'Z' && Alphabet(26) == 'a' && Alphabet(51) == 'z'
    ensures Alphabet(52) == '0' && Alphabet(61) == '9' && Alphabet(62) == '+' && Alphabet(63) == '/'
    ensures v != 25 && v != 51 && v < 61 ==> Alphabet(v + 1) as int == Alphabet(v) as int + 1
  {
  }

  predicate InAlphabet(s: string) {
    forall i :: 0 <= i < |s| ==> Sextet(s[i]) >= 0
  }

  function Quad(x: Octet, y: Octet, z: Octet): (s: Octets)
    ensures |s| == 4 && InAlphabet(s)
  {
    var i, j, k := x as int, y as int, z as int;
    [Alphabet(i / 4), Alphabet(i % 4 * 16 + j / 16), Alphabet(j % 16 * 4 + k / 64), Alphabet(k % 64)]
  }

  function Encode(b: Octets): (s: Octets)
    ensures InAlphabet(s)
    ensures |s| == 4 * (|b| / 3) + (if |b| % 3 == 0 then 0 else |b| % 3 + 1)
  {
    if |b| == 0 then []
    else
      var x := b[0] as int;
      if |b| == 1 then [Alphabet(x / 4), Alphabet(x % 4 * 16)]
      else
        var y := b[1] as int;
        if |b| == 2 then [Alphabet(x / 4), Alphabet(x % 4 * 16 + y / 16), Alphabet(y % 16 * 4)]
        else
          Quad(b[0], b[1], b[2]) + Encode(b[3..])
  }

  /** Every three bytes, as a number with the first one highest, are the four characters' values as one; a rest of one or
      two bytes is filled up with zero bits. */
  lemma EncodeIsTheNumber(b: Octets)
    requires b != []
    ensures |b| == 1 ==> |Encode(b)| == 2 && Sextet(Encode(b)[0]) * 64 + Sextet(Encode(b)[1]) == (b[0] as int) * 16
    ensures (|b| == 2 ==>
               && |Encode(b)| == 3
               && (Sextet(Encode(b)[0]) * 64 + Sextet(Encode(b)[1])) * 64 + Sextet(Encode(b)[2])
                  == ((b[0] as int) * 256 + b[1] as int) * 4)
    ensures (|b| >= 3 ==>
               && |Encode(b)| >= 4 && Encode(b)[4..] == Encode(b[3..])
               && ((Sextet(Encode(b)[0]) * 64 + Sextet(Encode(b)[1])) * 64 + Sextet(Encode(b)[2])) * 64 + Sextet(Encode(b)[3])
                  == ((b[0] as int) * 256 + b[1] as int) * 256 + b[2] as int)
  {
    if |b| >= 3 {
      assert Encode(b) == Quad(b[0], b[1], b[2]) + Encode(b[3..]);
      QuadIsTheNumber(b[0], b[1], b[2]);
    }
  }

  lemma QuadIsTheNumber(x: Octet, y: Octet, z: Octet)
    ensures var s := Quad(x, y, z);
            ((Sextet(s[0]) * 64 + Sextet(s[1])) * 64 + Sextet(s[2])) * 64 + Sextet(s[3])
            == ((x as int) * 256 + y as int) * 256 + z as int
  {
  }

  /** Line breaks inside the text are skipped. */
  function Unwrapped(s: string): string {
    if s == "" then ""
    else (if s[0] == '\r' || s[0] == '\n' then "" else s[..1]) + Unwrapped(s[1..])
  }

  function First(a: nat, b: nat): Octet
    requires a < 64 && b < 64
  {
    (a * 4 + b / 16) as char
  }

  function Second(b: nat, c: nat): Octet
    requires b < 64 && c < 64
  {
    (b % 16 * 16 + c / 4) as char
  }

  function Third(c: nat, d: nat): Octet
    requires c < 64 && d < 64
  {
    (c % 4 * 64 + d) as char
  }

  function Triple(p: char, q: char, r: char, t: char): (b: Octets)
    requires InAlphabet([p, q, r, t])
  {
    assert Sextet([p, q, r, t][0]) >= 0 && Sextet([p, q, r, t][1]) >= 0;
    assert Sextet([p, q, r, t][2]) >= 0 && Sextet([p, q, r, t][3]) >= 0;
    [First(Sextet(p), Sextet(q)), Second(Sextet(q), Sextet(r)), Third(Sextet(r), Sextet(t))]
  }

  /** Groups of four characters; a last group of two or three drops its spare bits unchecked, and a
      single left-over character is an error. */
  function Groups(s: string): Option<Octets>
    requires InAlphabet(s)
  {
    if |s| == 0 then Some([])
    else if |s| == 1 then None
    else
      var a, b := Sextet(s[0]), Sextet(s[1]);
      if |s| == 2 then Some([First(a, b)])
      else
        var c := Sextet(s[2]);
        if |s| == 3 then Some([First(a, b), Second(b, c)])
        else
          var rest := Groups(s[4..]);
          if rest.None? then None
          else Some(Triple(s[0], s[1], s[2], s[3]) + rest.value)
  }

  function Decode(s: string): Option<Octets> {
    if InAlphabet(Unwrapped(s)) then Groups(Unwrapped(s)) else None
  }

  lemma {:induction false} NothingToUnwrap(s: string)
    requires InAlphabet(s)
    ensures Unwrapped(s) == s
  {
    if s != "" {
      assert Sextet(s[0]) >= 0;
      NothingToUnwrap(s[1..]);
    }
  }

  /** The sextets cut from three octets put the octets back together. */
  lemma SextetsKeepOctets(x: Octet, y: Octet, z: Octet)
    ensures First(x as int / 4, x as int % 4 * 16 + y as int / 16) == x
    ensures Second(x as int % 4 * 16 + y as int / 16, y as int % 16 * 4 + z as int / 64) == y
    ensures Third(y as int % 16 * 4 + z as int / 64, z as int % 64) == z
  {
    var i, j, k := x as int, y as int, z as int;
    assert (i % 4 * 16 + j / 16) / 16 == i % 4;
    assert (i % 4 * 16 + j / 16) % 16 == j / 16;
    assert (j % 16 * 4 + k / 64) / 4 == j % 16;
    assert (j % 16 * 4 + k / 64) % 4 == k / 64;
  }

  lemma TripleUndoesQuad(x: Octet, y: Octet, z: Octet, s: Octets)
    requires s == Quad(x, y, z)
    ensures Triple(s[0], s[1], s[2], s[3]) == [x, y, z]
  {
    SextetsKeepOctets(x, y, z);
  }

  lemma GroupsStep(q: string, t: string)
    requires |q| == 4 && InAlphabet(q) && InAlphabet(t)
    ensures Groups(q + t) == match Groups(t) case None => None
                             case Some(rest) => Some(Triple(q[0], q[1], q[2], q[3]) + rest)
  {
    assert (q + t)[4..] == t;
  }

  lemma Spelled(b: Octets)
    ensures |b| == 1 ==> b == [b[0]]
    ensures |b| == 2 ==> b == [b[0], b[1]]
    ensures |b| >= 3 ==> b == [b[0], b[1], b[2]] + b[3..]
  {
  }

  lemma OneOctet(x: Octet)
    ensures Groups(Encode([x])) == Some([x])
  {
    var s := Encode([x]);
    assert Sextet(s[0]) == x as int / 4 && Sextet(s[1]) == x as int % 4 * 16;
    SextetsKeepOctets(x, '\0', '\0');
  }

  lemma TwoOctets(x: Octet, y: Octet)
    ensures Groups(Encode([x, y])) == Some([x, y])
  {
    var s := Encode([x, y]);
    assert Sextet(s[0]) == x as int / 4 && Sextet(s[1]) == x as int % 4 * 16 + y as int / 16;
    assert Sextet(s[2]) == y as int % 16 * 4;
    SextetsKeepOctets(x, y, '\0');
  }

  lemma {:induction false} GroupsUndoEncode(b: Octets)
    ensures Groups(Encode(b)) == Some(b)
  {
    if b == [] {
    } else if |b| == 1 {
      Spelled(b);
      OneOctet(b[0]);
    } else if |b| == 2 {
      Spelled(b);
      TwoOctets(b[0], b[1]);
    } else {
      GroupsUndoEncode(b[3..]);
      GroupsStep(Quad(b[0], b[1], b[2]), Encode(b[3..]));
      TripleUndoesQuad(b[0], b[1], b[2], Quad(b[0], b[1], b[2]));
      Spelled(b);
    }
  }

  /** Decoding gives every byte string back. */
  lemma DecodeUndoesEncode(b: Octets)
    ensures Decode(Encode(b)) == Some(b)
  {
    NothingToUnwrap(Encode(b));
    GroupsUndoEncode(b);
  }

  lemma EncodeIsInjective(b: Octets, c: Octets)
    requires Encode(b) == Encode(c)
    ensures b == c
  {
    GroupsUndoEncode(b);
    GroupsUndoEncode(c);
  }
}

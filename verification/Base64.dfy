/** Base 64, section 4 of RFC 4648, with the strict decoder. */
module Base64 {
  import opened Common

  newtype byte = x: int | 0 <= x < 0x100

  function Letter(d: nat): (c: char)
    requires d < 64
  {
    if d < 26 then ('A' as int + d) as char
    else if d < 52 then ('a' as int + d - 26) as char
    else if d < 62 then ('0' as int + d - 52) as char
    else if d == 62 then '+' else '/'
  }

  // The digit a letter of the alphabet stands for.
  function DigitOf(c: char): (d: Option<nat>)
    ensures d.Some? ==> d.value < 64
  {
    if 'A' <= c <= 'Z' then Some(c as int - 'A' as int)
    else if 'a' <= c <= 'z' then Some(c as int - 'a' as int + 26)
    else if '0' <= c <= '9' then Some(c as int - '0' as int + 52)
    else if c == '+' then Some(62) else if c == '/' then Some(63) else None
  }

  lemma {:induction false} DigitOfLetter(d: nat)
    requires d < 64
    ensures DigitOf(Letter(d)) == Some(d) && Letter(d) != '='
  {
  }

  // The four six-bit digits of three bytes.
  function Digits(a: byte, b: byte, c: byte): (d: (nat, nat, nat, nat))
    ensures d.0 < 64 && d.1 < 64 && d.2 < 64 && d.3 < 64
  {
    var (a, b, c) := (a as nat, b as nat, c as nat);
    (a / 4, a % 4 * 16 + b / 16, b % 16 * 4 + c / 64, c % 64)
  }

  function Encode(data: seq<byte>): string {
    if data == [] then ""
    else if |data| == 1 then
      var (p, q, _, _) := Digits(data[0], 0, 0);
      [Letter(p), Letter(q), '=', '=']
    else if |data| == 2 then
      var (p, q, r, _) := Digits(data[0], data[1], 0);
      [Letter(p), Letter(q), Letter(r), '=']
    else
      var (p, q, r, s) := Digits(data[0], data[1], data[2]);
      [Letter(p), Letter(q), Letter(r), Letter(s)] + Encode(data[3..])
  }

  function First(p: nat, q: nat): byte
    requires p < 64 && q < 64
  {
    (p * 4 + q / 16) as byte
  }

  function Second(q: nat, r: nat): byte
    requires q < 64 && r < 64
  {
    (q % 16 * 16 + r / 4) as byte
  }

  function Third(r: nat, s: nat): byte
    requires r < 64 && s < 64
  {
    (r % 4 * 64 + s) as byte
  }

  /** The bytes an encoding stands for, or none: a foreign character, padding before the
      end, or a length that is not a multiple of four. */
  function Decode(text: string): Option<seq<byte>> {
    if text == "" then Some([])
    else if |text| < 4 then None
    else
      match (DigitOf(text[0]), DigitOf(text[1]), DigitOf(text[2]), DigitOf(text[3]))
      case (Some(p), Some(q), Some(r), Some(s)) =>
        (match Decode(text[4..])
         case None => None
         case Some(rest) => Some([First(p, q), Second(q, r), Third(r, s)] + rest))
      case (Some(p), Some(q), Some(r), None) =>
        if text[3..] == "=" then Some([First(p, q), Second(q, r)]) else None
      case (Some(p), Some(q), None, _) => if text[2..] == "==" then Some([First(p, q)]) else None
      case _ => None
  }

  lemma {:induction false} FirstOfDigits(a: byte, b: byte, c: byte)
    ensures var (p, q, r, s) := Digits(a, b, c); First(p, q) == a
  {
    assert (a as nat % 4 * 16 + b as nat / 16) / 16 == a as nat % 4;
  }

  lemma {:induction false} SecondOfDigits(a: byte, b: byte, c: byte)
    ensures var (p, q, r, s) := Digits(a, b, c); Second(q, r) == b
  {
    assert (a as nat % 4 * 16 + b as nat / 16) % 16 == b as nat / 16;
    assert (b as nat % 16 * 4 + c as nat / 64) / 4 == b as nat % 16;
  }

  lemma {:induction false} ThirdOfDigits(a: byte, b: byte, c: byte)
    ensures var (p, q, r, s) := Digits(a, b, c); Third(r, s) == c
  {
    assert (b as nat % 16 * 4 + c as nat / 64) % 4 == c as nat / 64;
  }

  // A whole group of four letters decodes to its triple.
  lemma {:induction false} DecodeGroup(a: byte, b: byte, c: byte, rest: string)
    requires Decode(rest).Some?
    ensures var (p, q, r, s) := Digits(a, b, c);
            Decode([Letter(p), Letter(q), Letter(r), Letter(s)] + rest) == Some([a, b, c] + Decode(rest).value)
  {
    var (p, q, r, s) := Digits(a, b, c);
    DigitOfLetter(p);
    DigitOfLetter(q);
    DigitOfLetter(r);
    DigitOfLetter(s);
    FirstOfDigits(a, b, c);
    SecondOfDigits(a, b, c);
    ThirdOfDigits(a, b, c);
    assert ([Letter(p), Letter(q), Letter(r), Letter(s)] + rest)[4..] == rest;
  }

  lemma {:induction false} DecodePadded(a: byte, b: byte)
    ensures var (p, q, r, _) := Digits(a, b, 0);
            && Decode([Letter(p), Letter(q), Letter(r), '=']) == Some([a, b])
            && (b == 0 ==> Decode([Letter(p), Letter(q), '=', '=']) == Some([a]))
  {
    var (p, q, r, _) := Digits(a, b, 0);
    DigitOfLetter(p);
    DigitOfLetter(q);
    DigitOfLetter(r);
    FirstOfDigits(a, b, 0);
    SecondOfDigits(a, b, 0);
    assert [Letter(p), Letter(q), Letter(r), '='][3..] == "=";
    assert [Letter(p), Letter(q), '=', '='][2..] == "==";
  }

  /** Decoding undoes encoding, for every byte string. */
  lemma {:induction false} DecodeEncode(data: seq<byte>)
    ensures Decode(Encode(data)) == Some(data)
  {
    if |data| == 1 {
      DecodePadded(data[0], 0);
      assert data == [data[0]];
    } else if |data| == 2 {
      DecodePadded(data[0], data[1]);
      assert data == [data[0], data[1]];
    } else if data != [] {
      DecodeEncode(data[3..]);
      DecodeGroup(data[0], data[1], data[2], Encode(data[3..]));
      assert data == [data[0], data[1], data[2]] + data[3..];
    }
  }

  // ----- what is accepted

  // Table 1 of RFC 4648, the letters in the order of their digits.
  const ALPHABET: string :=
    "ABCDEFGHIJKLMNOPQRSTUVWXYZ" + "abcdefghijklmnopqrstuvwxyz" + "0123456789" + "+/"

  lemma {:induction false} LetterAtPlace(d: nat)
    requires d < 64
    ensures |ALPHABET| == 64 && Letter(d) == ALPHABET[d]
  {
  }

  /** A letter stands for its place in the alphabet, and no other character for any. */
  lemma {:induction false} DigitIsPlace(c: char)
    ensures |ALPHABET| == 64
    ensures DigitOf(c).Some? ==> ALPHABET[DigitOf(c).value] == c
    ensures DigitOf(c).Some? <==> c in ALPHABET
  {
    if DigitOf(c).Some? {
      LetterAtPlace(DigitOf(c).value);
    }
    if c in ALPHABET {
      var d :| 0 <= d < |ALPHABET| && ALPHABET[d] == c;
      LetterAtPlace(d);
      DigitOfLetter(d);
    }
  }

  // Letters, apart from `pad` equals signs at the very end.
  ghost predicate DigitsThenPad(text: string, pad: nat) {
    && pad <= |text|
    && (forall i :: 0 <= i < |text| - pad ==> DigitOf(text[i]).Some?)
    && (forall i :: |text| - pad <= i < |text| ==> text[i] == '=')
  }

  // Behind a group of letters the rest decides.
  lemma {:induction false} GroupOfLetters(text: string, pad: nat)
    requires |text| >= 4 && forall i :: 0 <= i < 4 ==> DigitOf(text[i]).Some?
    ensures DigitsThenPad(text, pad) <==> DigitsThenPad(text[4..], pad)
  {
    var rest := text[4..];
    if DigitsThenPad(text, pad) && pad > 0 {
      assert text[|text| - pad] == '=';
    }
    if DigitsThenPad(rest, pad) {
      assert forall i :: 4 <= i < |text| ==> text[i] == rest[i - 4];
    }
  }

  // The last group, with one or two letters missing.
  lemma {:induction false} PaddedGroup(text: string, pad: nat)
    requires |text| >= 4 && exists i :: 0 <= i < 4 && DigitOf(text[i]).None?
    ensures |text| % 4 == 0 && pad <= 2 && DigitsThenPad(text, pad) ==>
      |text| == 4 && Decode(text).Some? && |Decode(text).value| + pad == 3
    ensures Decode(text).Some? ==> |text| == 4 && (DigitsThenPad(text, 1) || DigitsThenPad(text, 2))
  {
    if text[3..] == "=" {
      assert text[3] == text[3..][0];
    }
    if text[2..] == "==" {
      assert text[2] == text[2..][0] && text[3] == text[2..][1];
    }
    if |text| == 4 {
      assert text[3..] == [text[3]] && text[2..] == [text[2], text[3]];
    }
  }

  lemma {:induction false} AcceptsDigits(text: string)
    ensures Decode(text).Some? <==> |text| % 4 == 0 && exists pad: nat :: pad <= 2 && DigitsThenPad(text, pad)
    ensures forall pad: nat :: pad <= 2 && DigitsThenPad(text, pad) && Decode(text).Some? ==>
      |Decode(text).value| + pad == |text| / 4 * 3
  {
    if |text| < 4 {
      assert DigitsThenPad("", 0);
    } else if forall i :: 0 <= i < 4 ==> DigitOf(text[i]).Some? {
      var rest := text[4..];
      AcceptsDigits(rest);
      forall pad: nat
        ensures DigitsThenPad(text, pad) <==> DigitsThenPad(rest, pad)
      {
        GroupOfLetters(text, pad);
      }
    } else {
      PaddedGroup(text, 0);
      forall pad: nat
        ensures |text| % 4 == 0 && pad <= 2 && DigitsThenPad(text, pad) ==>
          |text| == 4 && Decode(text).Some? && |Decode(text).value| + pad == 3
      {
        PaddedGroup(text, pad);
      }
    }
  }

  ghost predicate LettersThenPad(text: string, pad: nat) {
    && pad <= |text|
    && (forall i :: 0 <= i < |text| - pad ==> text[i] in ALPHABET)
    && (forall i :: |text| - pad <= i < |text| ==> text[i] == '=')
  }

  /** Letters of the alphabet in groups of four, with at most two equals signs at the very end. */
  ghost predicate WellFormed(text: string) {
    |text| % 4 == 0 && exists pad: nat :: pad <= 2 && LettersThenPad(text, pad)
  }

  lemma {:induction false} LettersAreDigits(text: string, pad: nat)
    ensures LettersThenPad(text, pad) <==> DigitsThenPad(text, pad)
  {
    forall i | 0 <= i < |text|
      ensures text[i] in ALPHABET <==> DigitOf(text[i]).Some?
    {
      DigitIsPlace(text[i]);
    }
  }

  /** The decoder accepts exactly the well-formed texts. Each group of four stands for three bytes,
      less one for each equals sign. */
  lemma {:induction false} DecodesIff(text: string)
    ensures Decode(text).Some? <==> WellFormed(text)
    ensures forall pad: nat :: pad <= 2 && LettersThenPad(text, pad) && Decode(text).Some? ==>
      |Decode(text).value| + pad == |text| / 4 * 3
  {
    AcceptsDigits(text);
    forall pad: nat
      ensures LettersThenPad(text, pad) <==> DigitsThenPad(text, pad)
    {
      LettersAreDigits(text, pad);
    }
  }

  /** Four digits and the three bytes they stand for are the same 24-bit number, and so are three
      bytes and their digits. */
  lemma {:induction false} SameNumber(p: nat, q: nat, r: nat, s: nat, a: byte, b: byte, c: byte)
    requires p < 64 && q < 64 && r < 64 && s < 64
    ensures (First(p, q) as nat * 0x100 + Second(q, r) as nat) * 0x100 + Third(r, s) as nat ==
            ((p * 64 + q) * 64 + r) * 64 + s
    ensures var d := Digits(a, b, c);
            ((d.0 * 64 + d.1) * 64 + d.2) * 64 + d.3 == (a as nat * 0x100 + b as nat) * 0x100 + c as nat
  {
  }

  // Test vectors of section 10 of RFC 4648.
  lemma {:induction false} Vectors()
    ensures Encode([102]) == "Zg==" && Encode([102, 111]) == "Zm8=" && Encode([102, 111, 111]) == "Zm9v"
  {
    assert [102 as byte, 111, 111][3..] == [];
  }
}

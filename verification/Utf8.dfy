/** UTF-8 validation of NUL-terminated strings. */
module Utf8 {
  import opened Varints

  /** Unicode scalar values, and the encoding of section 3 of RFC 3629. */
  predicate Scalar(cp: nat) { cp < 0x11_0000 && !(0xD800 <= cp < 0xE000) }

  function Encode(cp: nat): seq<byte>
    requires Scalar(cp)
  {
    if cp < 0x80 then [cp]
    else if cp < 0x800 then [0xC0 + cp / 0x40, 0x80 + cp % 0x40]
    else if cp < 0x1_0000 then [0xE0 + cp / 0x1000, 0x80 + (cp / 0x40) % 0x40, 0x80 + cp % 0x40]
    else [0xF0 + cp / 0x4_0000, 0x80 + (cp / 0x1000) % 0x40, 0x80 + (cp / 0x40) % 0x40, 0x80 + cp % 0x40]
  }

  /** The characters a string may hold: every scalar value but the terminator,
      U+FFFE and U+FFFF. */
  predicate Character(cp: nat) { Scalar(cp) && cp != 0 && cp != 0xFFFE && cp != 0xFFFF }

  function EncodeAll(cps: seq<nat>): seq<byte>
    requires forall i :: 0 <= i < |cps| ==> Scalar(cps[i])
  {
    if cps == [] then [] else Encode(cps[0]) + EncodeAll(cps[1..])
  }

  ghost predicate Spells(cps: seq<nat>, s: seq<byte>) {
    (forall i :: 0 <= i < |cps| ==> Character(cps[i])) && EncodeAll(cps) == s
  }

  ghost predicate IsText(s: seq<byte>) { exists cps: seq<nat> :: Spells(cps, s) }

  // ---------------------------------------------------------------------------
  // The byte sequences of section 4 of RFC 3629

  predicate Tail(b: byte) { 0x80 <= b <= 0xBF }

  predicate Sequence(p: seq<byte>) {
    match |p|
    case 1 => p[0] <= 0x7F
    case 2 => 0xC2 <= p[0] <= 0xDF && Tail(p[1])
    case 3 =>
      && Tail(p[2])
      && ( || (p[0] == 0xE0 && 0xA0 <= p[1] <= 0xBF)
           || (0xE1 <= p[0] <= 0xEC && Tail(p[1]))
           || (p[0] == 0xED && 0x80 <= p[1] <= 0x9F)
           || (0xEE <= p[0] <= 0xEF && Tail(p[1])))
    case 4 =>
      && Tail(p[2]) && Tail(p[3])
      && ( || (p[0] == 0xF0 && 0x90 <= p[1] <= 0xBF)
           || (0xF1 <= p[0] <= 0xF3 && Tail(p[1]))
           || (p[0] == 0xF4 && 0x80 <= p[1] <= 0x8F))
    case _ => false
  }

  /** The number that a sequence spells. */
  function CodePoint(p: seq<byte>): nat
    requires Sequence(p)
  {
    var q: seq<int> := p;
    if |q| == 1 then q[0]
    else if |q| == 2 then (q[0] - 0xC0) * 0x40 + (q[1] - 0x80)
    else if |q| == 3 then ((q[0] - 0xE0) * 0x40 + (q[1] - 0x80)) * 0x40 + (q[2] - 0x80)
    else (((q[0] - 0xF0) * 0x40 + (q[1] - 0x80)) * 0x40 + (q[2] - 0x80)) * 0x40 + (q[3] - 0x80)
  }

  lemma {:induction false} SixBits(hi: int, low: int)
    requires 0 <= hi && 0 <= low < 0x40
    ensures (hi * 0x40 + low) / 0x40 == hi && (hi * 0x40 + low) % 0x40 == low
  {
  }

  lemma {:induction false} Shifts(cp: nat)
    ensures cp / 0x1000 == (cp / 0x40) / 0x40 && cp / 0x4_0000 == (cp / 0x1000) / 0x40
  {
  }

  /** The two sections agree: encodings of scalar values are exactly the listed
      byte sequences. */
  lemma {:induction false} SequenceSpells(p: seq<byte>)
    requires Sequence(p)
    ensures Scalar(CodePoint(p)) && Encode(CodePoint(p)) == p
  {
    var cp := CodePoint(p);
    var q: seq<int> := p;
    Shifts(cp);
    if |q| == 2 {
      SixBits(q[0] - 0xC0, q[1] - 0x80);
    } else if |q| == 3 {
      var hi, mid := q[0] - 0xE0, q[1] - 0x80;
      SixBits(hi, mid);
      SixBits(hi * 0x40 + mid, q[2] - 0x80);
    } else if |q| == 4 {
      LongSequenceSpells(p);
    }
  }

  lemma {:induction false} LongSequenceSpells(p: seq<byte>)
    requires Sequence(p) && |p| == 4
    ensures Scalar(CodePoint(p)) && Encode(CodePoint(p)) == p
  {
    var q: seq<int> := p;
    var top, hi, mid := q[0] - 0xF0, q[1] - 0x80, q[2] - 0x80;
    Shifts(CodePoint(p));
    SixBits(top, hi);
    SixBits(top * 0x40 + hi, mid);
    SixBits((top * 0x40 + hi) * 0x40 + mid, q[3] - 0x80);
  }

  lemma {:induction false} EncodeIsSequence(cp: nat)
    requires Scalar(cp)
    ensures Sequence(Encode(cp)) && CodePoint(Encode(cp)) == cp
  {
    Shifts(cp);
  }

  // ---------------------------------------------------------------------------
  // Validation

  /** The bytes of the character at the front of `s`, or none. */
  function Front(s: seq<byte>): (k: nat)
    ensures k <= |s|
  {
    if s == [] then 0
    else if s[0] < 0x80 then 1
    else if s[0] / 0x20 == 6 then
      if |s| < 2 || s[1] / 0x40 != 2 || s[0] / 2 == 0x60 then 0 else 2
    else if s[0] / 0x10 == 0xE then
      if || |s| < 3 || s[1] / 0x40 != 2 || s[2] / 0x40 != 2
         || (s[0] == 0xE0 && s[1] / 0x20 == 4)
         || (s[0] == 0xED && s[1] / 0x20 == 5)
         || (s[0] == 0xEF && s[1] == 0xBF && s[2] / 2 == 0x5F) then 0 else 3
    else if s[0] / 8 == 0x1E then
      if || |s| < 4 || s[1] / 0x40 != 2 || s[2] / 0x40 != 2 || s[3] / 0x40 != 2
         || (s[0] == 0xF0 && s[1] / 0x10 == 8)
         || (s[0] == 0xF4 && s[1] > 0x8F) || s[0] > 0xF4 then 0 else 4
    else 0
  }

  lemma {:induction false} FrontAccepts(s: seq<byte>)
    requires s != [] && s[0] != 0 && Front(s) > 0
    ensures Sequence(s[..Front(s)]) && Character(CodePoint(s[..Front(s)]))
  {
    SequenceSpells(s[..Front(s)]);
  }

  lemma {:induction false} FrontCovers(s: seq<byte>, cp: nat)
    requires Character(cp) && Encode(cp) <= s
    ensures Front(s) == |Encode(cp)| && s[0] != 0
  {
    EncodeIsSequence(cp);
    var p := Encode(cp);
    forall i | 0 <= i < |p| ensures s[i] == p[i] { assert s[..|p|][i] == p[i]; }
  }

  lemma {:induction false} DropCharacter(s: seq<byte>, cps: seq<nat>)
    requires s != [] && Spells(cps, s)
    ensures cps != [] && 0 < Front(s) && Spells(cps[1..], s[Front(s)..])
  {
    hide Front, Encode;
    assert s == Encode(cps[0]) + EncodeAll(cps[1..]);
    FrontCovers(s, cps[0]);
    EncodeIsSequence(cps[0]);
    assert s[Front(s)..] == EncodeAll(cps[1..]);
  }

  lemma {:induction false} AddCharacter(s: seq<byte>, rest: seq<nat>)
    requires s != [] && s[0] != 0 && Front(s) > 0 && Spells(rest, s[Front(s)..])
    ensures Sequence(s[..Front(s)]) && Spells([CodePoint(s[..Front(s)])] + rest, s)
  {
    hide Front, Encode, Sequence, CodePoint;
    var k := Front(s);
    FrontAccepts(s);
    SequenceSpells(s[..k]);
    var cps := [CodePoint(s[..k])] + rest;
    assert cps[1..] == rest && s[..k] + s[k..] == s;
  }

  /** Reading one character. */
  lemma {:induction false} TextStep(s: seq<byte>)
    requires s != [] && s[0] != 0
    ensures Front(s) == 0 ==> !IsText(s)
    ensures Front(s) > 0 ==> (IsText(s) <==> IsText(s[Front(s)..]))
  {
    hide Front, Spells;
    if IsText(s) {
      var cps: seq<nat> :| Spells(cps, s);
      DropCharacter(s, cps);
      var rest: seq<nat> := cps[1..];
      assert Spells(rest, s[Front(s)..]);
    }
    if Front(s) > 0 && IsText(s[Front(s)..]) {
      var rest: seq<nat> :| Spells(rest, s[Front(s)..]);
      FrontAccepts(s);
      AddCharacter(s, rest);
    }
  }

  lemma {:induction false} EmptyIsText()
    ensures IsText([])
  {
    assert Spells([], []);
  }

  /** `pb_validate_utf8`: every byte it looks at lies at or before the terminator. */
  method ValidateUtf8(str: seq<byte>) returns (valid: bool)
    requires str != [] && str[|str| - 1] == 0 && 0 !in str[..|str| - 1]
    ensures valid <==> IsText(str[..|str| - 1])
  {
    hide IsText;
    ghost var text := str[..|str| - 1];
    var s := 0;
    EmptyIsText();
    assert text[0..] == text;
    while str[s] != 0
      invariant 0 <= s < |str| && (IsText(text) <==> IsText(text[s..]))
      decreases |str| - s
    {
      ghost var rest := text[s..];
      assert rest[0] == str[s] && text[s] in text;
      TextStep(rest);
      if str[s] < 0x80 {
        assert rest[1..] == text[s + 1..];
        s := s + 1;
      } else if str[s] / 0x20 == 6 {
        if str[s + 1] / 0x40 != 2 || str[s] / 2 == 0x60 {
          return false;
        }
        assert rest[2..] == text[s + 2..];
        s := s + 2;
      } else if str[s] / 0x10 == 0xE {
        if || str[s + 1] / 0x40 != 2
           || str[s + 2] / 0x40 != 2
           || (str[s] == 0xE0 && str[s + 1] / 0x20 == 4)
           || (str[s] == 0xED && str[s + 1] / 0x20 == 5)
           || (str[s] == 0xEF && str[s + 1] == 0xBF && str[s + 2] / 2 == 0x5F) {
          return false;
        }
        assert rest[3..] == text[s + 3..];
        s := s + 3;
      } else if str[s] / 8 == 0x1E {
        if || str[s + 1] / 0x40 != 2
           || str[s + 2] / 0x40 != 2
           || str[s + 3] / 0x40 != 2
           || (str[s] == 0xF0 && str[s + 1] / 0x10 == 8)
           || (str[s] == 0xF4 && str[s + 1] > 0x8F) || str[s] > 0xF4 {
          return false;
        }
        assert rest[4..] == text[s + 4..];
        s := s + 4;
      } else {
        return false;
      }
    }
    assert s == |str| - 1 && text[s..] == [];
    valid := true;
  }
}

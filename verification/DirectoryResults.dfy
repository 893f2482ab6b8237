/**
 What `n2i` reads from any text (yfs_client.cc:19-26), in terms of the characters alone.
 */
module DirectoryResults {
  import opened Common
  import opened Directory

  predicate AllSpaces(s: string) { forall i :: 0 <= i < |s| ==> IsSpace(s[i]) }

  /** Nothing that white space in front of it could hide. */
  predicate StartsVisibly(s: string) { s != [] && !IsSpace(s[0]) }

  lemma {:induction false} SpacesAreSkipped(sp: string, t: string)
    requires AllSpaces(sp) && (t == [] || StartsVisibly(t))
    ensures SkipSpace(sp + t) == t
  {
    if sp == [] {
      assert sp + t == t;
    } else {
      SpacesAreSkipped(sp[1..], t);
      assert (sp + t)[1..] == sp[1..] + t;
    }
  }

  lemma {:induction false} DigitsAreTaken(ds: string, rest: string)
    requires AllDigits(ds) && (rest == [] || !IsDigit(rest[0]))
    ensures DigitPrefix(ds + rest) == ds
  {
    if ds == [] {
      assert ds + rest == rest;
    } else {
      DigitsAreTaken(ds[1..], rest);
      assert (ds + rest)[1..] == ds[1..] + rest && [ds[0]] + ds[1..] == ds;
    }
  }

  /** The 64-bit number that a sign and a decimal number stand for: too large a number gives the largest one. */
  function Saturated(sign: string, n: nat): (id: Inum) {
    if n >= TWO_64 then TWO_64 - 1 else if sign == "-" then (TWO_64 - n) % TWO_64 else n
  }

  /** White space, a sign or none, a number, and then anything but a digit. */
  lemma NumberIsRead(sp: string, sign: string, n: nat, rest: string)
    requires AllSpaces(sp) && (sign == "" || sign == "+" || sign == "-") && (rest == [] || !IsDigit(rest[0]))
    ensures N2i(sp + (sign + (Print(n) + rest))) == Some(Saturated(sign, n))
  {
    PrintSpells(n);
    var number := Print(n) + rest;
    var t := sign + number;
    assert IsDigit(Print(n)[0]) && number[0] == Print(n)[0];
    assert sign == "" ==> t == number;
    assert sign != "" ==> t[0] == sign[0] && t[1..] == number;
    SpacesAreSkipped(sp, t);
    DigitsAreTaken(Print(n), rest);
  }

  /** White space alone leaves the number uninitialised. */
  lemma NothingIsRead(sp: string)
    requires AllSpaces(sp)
    ensures N2i(sp) == None
  {
    SpacesAreSkipped(sp, []);
    assert sp + [] == sp;
  }

  /** Anything else that does not begin with a number reads as 0. */
  lemma NoNumberIsZero(sp: string, sign: string, rest: string)
    requires AllSpaces(sp) && (sign == "" || sign == "+" || sign == "-") && (rest == [] || !IsDigit(rest[0]))
    requires StartsVisibly(sign + rest) && (sign == "" ==> rest[0] != '+' && rest[0] != '-')
    ensures N2i(sp + (sign + rest)) == Some(0)
  {
    var t := sign + rest;
    assert sign == "" ==> t == rest;
    assert sign != "" ==> t[0] == sign[0] && t[1..] == rest;
    SpacesAreSkipped(sp, t);
    assert DigitPrefix(rest) == [];
  }
}

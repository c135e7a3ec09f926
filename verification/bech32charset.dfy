/** The Bech32 and Bech32m character set: a table from symbols to characters and its reverse. */
module Bech32Charset {
  import opened Options

  predicate IsLower(c: char) { 'a' <= c <= 'z' }

  predicate IsUpper(c: char) { 'A' <= c <= 'Z' }

  predicate IsPrintable(c: char) { 33 <= c as int <= 126 }

  function LowerCase(c: char): char {
    if IsUpper(c) then (c as int + 32) as char else c
  }

  // The tables are cut into four rows of eight symbols.
  function Row0(v: bv8): char {
    if v == 0 then 'q' else if v == 1 then 'p' else if v == 2 then 'z' else if v == 3 then 'r'
    else if v == 4 then 'y' else if v == 5 then '9' else if v == 6 then 'x' else '8'
  }

  function Row1(v: bv8): char {
    if v == 8 then 'g' else if v == 9 then 'f' else if v == 10 then '2' else if v == 11 then 't'
    else if v == 12 then 'v' else if v == 13 then 'd' else if v == 14 then 'w' else '0'
  }

  function Row2(v: bv8): char {
    if v == 16 then 's' else if v == 17 then '3' else if v == 18 then 'j' else if v == 19 then 'n'
    else if v == 20 then '5' else if v == 21 then '4' else if v == 22 then 'k' else 'h'
  }

  function Row3(v: bv8): char {
    if v == 24 then 'c' else if v == 25 then 'e' else if v == 26 then '6' else if v == 27 then 'm'
    else if v == 28 then 'u' else if v == 29 then 'a' else if v == 30 then '7' else 'l'
  }

  function Rev0(c: char): Option<bv8> {
    if c == 'q' then Some(0) else if c == 'p' then Some(1) else if c == 'z' then Some(2) else if c == 'r' then Some(3)
    else if c == 'y' then Some(4) else if c == '9' then Some(5) else if c == 'x' then Some(6)
    else if c == '8' then Some(7) else None
  }

  function Rev1(c: char): Option<bv8> {
    if c == 'g' then Some(8) else if c == 'f' then Some(9) else if c == '2' then Some(10) else if c == 't' then Some(11)
    else if c == 'v' then Some(12) else if c == 'd' then Some(13) else if c == 'w' then Some(14)
    else if c == '0' then Some(15) else None
  }

  function Rev2(c: char): Option<bv8> {
    if c == 's' then Some(16) else if c == '3' then Some(17) else if c == 'j' then Some(18)
    else if c == 'n' then Some(19)
    else if c == '5' then Some(20) else if c == '4' then Some(21) else if c == 'k' then Some(22)
    else if c == 'h' then Some(23) else None
  }

  function Rev3(c: char): Option<bv8> {
    if c == 'c' then Some(24) else if c == 'e' then Some(25) else if c == '6' then Some(26)
    else if c == 'm' then Some(27)
    else if c == 'u' then Some(28) else if c == 'a' then Some(29) else if c == '7' then Some(30)
    else if c == 'l' then Some(31) else None
  }

  function Charset(v: bv8): char
    requires v < 32
  {
    if v < 8 then Row0(v) else if v < 16 then Row1(v) else if v < 24 then Row2(v) else Row3(v)
  }

  /** The reverse table has the same entries for both cases of a letter. */
  function CharsetRev(c: char): Option<bv8> {
    var l := LowerCase(c);
    if Rev0(l).Some? then Rev0(l) else if Rev1(l).Some? then Rev1(l) else if Rev2(l).Some? then Rev2(l) else Rev3(l)
  }

  lemma Row0Back(v: bv8)
    requires v < 8
    ensures var c := Row0(v);
            Rev0(c) == Some(v) && IsPrintable(c) && !IsUpper(c) && c != '1'
  {
  }

  lemma Rev0Back(c: char)
    requires Rev0(c).Some?
    ensures Rev0(c).value < 8 && Row0(Rev0(c).value) == c
  {
  }

  lemma Row1Back(v: bv8)
    requires 8 <= v < 16
    ensures var c := Row1(v);
            Rev1(c) == Some(v) && IsPrintable(c) && !IsUpper(c) && c != '1' && Rev0(c) == None
  {
  }

  lemma Rev1Back(c: char)
    requires Rev1(c).Some?
    ensures 8 <= Rev1(c).value < 16 && Row1(Rev1(c).value) == c
  {
  }

  lemma Row2Back(v: bv8)
    requires 16 <= v < 24
    ensures var c := Row2(v);
            Rev2(c) == Some(v) && IsPrintable(c) && !IsUpper(c) && c != '1' && Rev0(c) == None && Rev1(c) == None
  {
  }

  lemma Rev2Back(c: char)
    requires Rev2(c).Some?
    ensures 16 <= Rev2(c).value < 24 && Row2(Rev2(c).value) == c
  {
  }

  lemma Row3Back(v: bv8)
    requires 24 <= v < 32
    ensures var c := Row3(v);
            Rev3(c) == Some(v) && IsPrintable(c) && !IsUpper(c) && c != '1' && Rev0(c) == None && Rev1(c) == None
                && Rev2(c) == None
  {
  }

  lemma Rev3Back(c: char)
    requires Rev3(c).Some?
    ensures 24 <= Rev3(c).value < 32 && Row3(Rev3(c).value) == c
  {
  }

  lemma CharsetBack(v: bv8)
    requires v < 32
    ensures CharsetRev(Charset(v)) == Some(v) && IsPrintable(Charset(v)) && !IsUpper(Charset(v)) && Charset(v) != '1'
  {
    hide Row0, Row1, Row2, Row3, Rev0, Rev1, Rev2, Rev3;
    if v < 8 {
      Row0Back(v);
    } else if v < 16 {
      Row1Back(v);
    } else if v < 24 {
      Row2Back(v);
    } else {
      Row3Back(v);
    }
  }

  lemma CharsetForth(c: char)
    requires CharsetRev(c).Some?
    ensures CharsetRev(c).value < 32 && Charset(CharsetRev(c).value) == LowerCase(c)
  {
    hide Row0, Row1, Row2, Row3, Rev0, Rev1, Rev2, Rev3;
    var l := LowerCase(c);
    if Rev0(l).Some? {
      Rev0Back(l);
    } else if Rev1(l).Some? {
      Rev1Back(l);
    } else if Rev2(l).Some? {
      Rev2Back(l);
    } else {
      Rev3Back(l);
    }
  }
}

/**
 What a normalised id is: a string is its own, a whole number is written in decimal, a
 fraction is dropped towards zero, and nothing else is an id. Reading the string back
 gives the number, so different numbers are different ids.
 */
module IdStrings {
  import opened Trees
  import opened SchemaRefs

  /** The character of a digit. */
  function DigitChar(d: nat): char
    requires d < 10
  {
    ['0', '1', '2', '3', '4', '5', '6', '7', '8', '9'][d]
  }

  lemma DigitCharReads(d: nat)
    requires d < 10
    ensures IsDigit(DigitChar(d)) && DigitChar(d) as int - '0' as int == d
    ensures DigitChar(d) == '0' <==> d == 0
  {}

  predicate AllDigits(s: string) {
    forall c | c in s :: IsDigit(c)
  }

  lemma ValueSnoc(s: string, c: char)
    requires AllDigits(s) && IsDigit(c)
    ensures AllDigits(s + [c]) && DigitsValue(s + [c]) == 10 * DigitsValue(s) + (c as int - '0' as int)
  {
    assert (s + [c])[..|s|] == s;
  }

  lemma DigitsStep(n: nat)
    ensures Digits(n) == (if n < 10 then [] else Digits(n / 10)) + [DigitChar(n % 10)]
  {}

  lemma {:induction false} DigitsRead(n: nat)
    ensures Digits(n) != "" && AllDigits(Digits(n)) && DigitsValue(Digits(n)) == n
    ensures Digits(n)[0] == '0' <==> n == 0
    ensures n == 0 ==> Digits(n) == "0"
    decreases n
  {
    DigitsStep(n);
    DigitCharReads(n % 10);
    if n >= 10 {
      DigitsRead(n / 10);
      ValueSnoc(Digits(n / 10), DigitChar(n % 10));
    } else {
      ValueSnoc([], DigitChar(n));
      assert [] + [DigitChar(n)] == [DigitChar(n)];
    }
  }

  lemma ReadUnsigned(s: string)
    requires s != "" && AllDigits(s)
    ensures s[0] != '+' && s[0] != '-'
    ensures Atoi(s) == Some(DigitsValue(s))
    ensures var value: int := DigitsValue(s);
            Atoi("-" + s) == Some(-value)
  {
    assert s[0] in s;
    assert ("-" + s)[1..] == s;
  }

  /** The decimal form: it reads back, and has no sign but a minus and no leading zero. */
  lemma FormatIntReads(i: int)
    ensures Atoi(FormatInt(i)) == Some(i)
    ensures FormatInt(i) != "" && FormatInt(i)[0] != '+'
    ensures i >= 0 ==> FormatInt(i)[0] != '-' && (FormatInt(i)[0] == '0' ==> FormatInt(i) == "0")
    ensures i < 0 ==> FormatInt(i) == "-" + FormatInt(-i)
  {
    DigitsRead(if i < 0 then -i else i);
    ReadUnsigned(Digits(if i < 0 then -i else i));
  }

  lemma FormatIntInjective(i: int, j: int)
    requires FormatInt(i) == FormatInt(j)
    ensures i == j
  {
    FormatIntReads(i);
    FormatIntReads(j);
  }

  /** The whole part, towards zero. */
  lemma TruncateIs(r: real)
    ensures var t := Truncate(r) as real;
            if r >= 0.0 then 0.0 <= t <= r < t + 1.0 else t - 1.0 < r <= t <= 0.0
  {}

  /** Which values are ids, and which id each of them is. */
  lemma IdOf(t: Tree)
    ensures AsString(t).Some? <==> t.Leaf? && !t.v.Bool?
    ensures t.Leaf? && t.v.Str? ==> AsString(t) == Some(t.v.s)
    ensures t.Leaf? && t.v.Int? ==> AsString(t).Some? && Atoi(AsString(t).value) == Some(t.v.i)
    ensures t.Leaf? && t.v.Float? ==> AsString(t) == AsString(Leaf(Int(Truncate(t.v.r))))
  {
    if t.Leaf? && t.v.Int? {
      FormatIntReads(t.v.i);
    }
  }

  /** A string that is the id of a number reads back as that number. */
  lemma SameId(i: int, s: string)
    requires AsString(Leaf(Int(i))) == AsString(Leaf(Str(s)))
    ensures Atoi(s) == Some(i)
  {
    FormatIntReads(i);
  }

  /** Different numbers are different ids. */
  lemma DifferentIds(i: int, j: int)
    ensures AsString(Leaf(Int(i))) == AsString(Leaf(Int(j))) <==> i == j
  {
    if FormatInt(i) == FormatInt(j) {
      FormatIntInjective(i, j);
    }
  }
}

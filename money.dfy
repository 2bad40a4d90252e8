/** Dollar amounts as the box-office pages print them ("$1,234,567"), and
    the conversion the script applies to them: drop every `$` and `,`, then
    hand the rest to Python's `int()`. */
module Money {
  import opened PyBuiltins

  /** The placeholder a gross cell shows when the figure does not apply:
      an en dash. */
  const Sentinel: string := "\U{2013}"

  /** `int(text.replace('$', '').replace(',', ''))`. Succeeds only when the
      text, once dollar signs and commas are gone, is an integer literal:
      any other character in it is a ValueError. */
  function ParseMoney(text: string): (r: Result<int>)
    ensures r.Ok? ==> forall k :: 0 <= k < |text| ==>
      IsDigit(text[k]) || IsSpace(text[k]) || text[k] in "$,+-_"
    ensures r.Err? ==> r.error == ValueError
  {
    var residue := RemoveChar(RemoveChar(text, '$'), ',');
    var r := PyInt(residue);
    if r.Ok? then
      assert forall k :: 0 <= k < |text| ==> text[k] in "$," || text[k] in residue by {
        forall k | 0 <= k < |text| ensures text[k] in "$," || text[k] in residue {
          assert text[k] in text;
        }
      }
      r
    else r
  }

  /** The placeholder is never a figure. */
  lemma SentinelIsNotMoney()
    ensures ParseMoney(Sentinel) == Err(ValueError)
  {
  }

  // ------------------------------------------------- the printed format

  /** One to three digits, then any number of ",ddd" groups. */
  predicate Grouped(t: string)
    decreases |t|
  {
    || (1 <= |t| <= 3 && AllDigits(t))
    || (|t| >= 5 && t[|t| - 4] == ',' && AllDigits(t[|t| - 3..]) && Grouped(t[..|t| - 4]))
  }

  /** A dollar amount as printed: "$" and a grouped number. */
  predicate IsMoneyText(s: string) {
    |s| >= 2 && s[0] == '$' && Grouped(s[1..])
  }

  /** The number a grouped text denotes, read group by group in base 1000. */
  function GroupedValue(t: string): nat
    requires Grouped(t)
    decreases |t|
  {
    if 1 <= |t| <= 3 && AllDigits(t) then DigitsValue(t)
    else GroupedValue(t[..|t| - 4]) * 1000 + DigitsValue(t[|t| - 3..])
  }

  /** Dropping the commas from a grouped text leaves a non-empty run of
      digits whose decimal value is the grouped value. */
  lemma {:induction false} GroupedDigits(t: string)
    requires Grouped(t)
    ensures '$' !in t
    ensures var d := RemoveChar(t, ',');
      |d| > 0 && AllDigits(d) && DigitsValue(d) == GroupedValue(t)
    decreases |t|
  {
    if 1 <= |t| <= 3 && AllDigits(t) {
      NotInDigits(t, '$');
      NotInDigits(t, ',');
      RemoveCharAbsent(t, ',');
    } else {
      var u, g := t[..|t| - 4], t[|t| - 3..];
      GroupedDigits(u);
      NotInDigits(g, '$');
      NotInDigits(g, ',');
      assert t == u + [','] + g;
      CommaGroup(u, g);
    }
  }

  /** A run of digits holds no other character. */
  lemma NotInDigits(s: string, c: char)
    requires AllDigits(s) && !IsDigit(c)
    ensures c !in s
  {
    assert forall k :: 0 <= k < |s| ==> s[k] != c;
  }

  /** Appending one ",ddd" group multiplies by 1000 and adds the group. */
  lemma CommaGroup(u: string, g: string)
    requires AllDigits(RemoveChar(u, ','))
    requires |g| == 3 && AllDigits(g) && ',' !in g
    ensures var d := RemoveChar(u, ',');
      RemoveChar(u + [','] + g, ',') == d + g
      && AllDigits(d + g) && DigitsValue(d + g) == DigitsValue(d) * 1000 + DigitsValue(g)
  {
    CommaDropped(u, g);
    var d := RemoveChar(u, ',');
    DigitsValueAppend(d, g);
    assert Pow10(|g|) == 1000;
  }

  /** Dropping the commas of "u,g" when `g` has none. */
  lemma CommaDropped(u: string, g: string)
    requires ',' !in g
    ensures RemoveChar(u + [','] + g, ',') == RemoveChar(u, ',') + g
  {
    var x, ru := u + [','], RemoveChar(u, ',');
    assert RemoveChar(x, ',') == ru by {
      RemoveCharAppend(u, [','], ',');
      RemoveCharSelf(',');
      assert ru + [] == ru;
    }
    RemoveCharAppend(x, g, ',');
    RemoveCharAbsent(g, ',');
  }

  lemma RemoveCharSelf(c: char)
    ensures RemoveChar([c], c) == []
  {
    assert [c][1..] == [];
  }

  /** Every printed dollar amount converts to the number it shows. */
  lemma MoneyTextValue(s: string)
    requires IsMoneyText(s)
    ensures ParseMoney(s) == Ok(GroupedValue(s[1..]))
  {
    var t := s[1..];
    GroupedDigits(t);
    assert s == "$" + t;
    RemoveCharAppend("$", t, '$');
    RemoveCharAbsent(t, '$');
    assert RemoveChar("$", '$') == [];
    assert RemoveChar(s, '$') == t;
    PyIntDigits(RemoveChar(t, ','));
  }

  /** How the box-office site prints a whole number of dollars. */
  function FormatMoney(n: nat): (s: string)
    ensures IsMoneyText(s) && GroupedValue(s[1..]) == n
  {
    var g := Group(n);
    assert ("$" + g)[1..] == g;
    "$" + g
  }

  function Group(n: nat): (t: string)
    ensures Grouped(t) && GroupedValue(t) == n
  {
    if n < 1000 then
      DecLength(n, 3);
      Dec(n)
    else
      var head, tail := Group(n / 1000), Pad(n % 1000, 3);
      DecLength(n % 1000, 3);
      var t := head + "," + tail;
      assert t[..|t| - 4] == head && t[|t| - 3..] == tail;
      t
  }

  /** Printing an amount and converting it back gives the amount. */
  lemma FormatParse(n: nat)
    ensures ParseMoney(FormatMoney(n)) == Ok(n)
  {
    MoneyTextValue(FormatMoney(n));
  }
}

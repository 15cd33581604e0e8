/** The reference data the transfer form loads, and the users and currencies its
    tests serve: every user's balance in a currency is written with exactly that
    currency's number of decimals, so it passes the precision check. */
module TransferTypes {
  import opened Digits
  import opened DecimalUtils

  /** A currency; `decimals` is the number of fraction digits an amount in it must have. */
  datatype Currency = Currency(id: int, code: string, name: string, decimals: nat)

  /** A user with, per currency code, the largest amount they may transfer. */
  datatype User = User(id: int, name: string, currencies: map<string, string>)

  const Rub := Currency(1, "RUB", "Russian Ruble", 3)
  const Usd := Currency(2, "USD", "US Dollar", 2)
  const Eur := Currency(3, "EUR", "Euro", 2)
  const Gel := Currency(4, "GEL", "Georgian Lari", 3)

  const Currencies: seq<Currency> := [Rub, Usd, Eur, Gel]

  const Alice := User(1, "Alice", map["RUB" := "1000.000", "USD" := "521.50"])
  const Bob := User(2, "Bob", map["RUB" := "200000.000", "EUR" := "1521.10"])
  const Tom := User(3, "Tom", map["RUB" := "10.000", "USD" := "99.50", "EUR" := "300.00", "GEL" := "600.000"])
  const Mike := User(4, "Mike", map["USD" := "21.10", "EUR" := "439.90", "GEL" := "960.000"])

  const Users: seq<User> := [Alice, Bob, Tom, Mike]

  /** `w.f` passes the precision check for `|f|` decimals. */
  lemma FixedPointAmountAccepted(s: string, w: string, f: string)
    requires s == w + "." + f && AllDigits(w) && w != [] && AllDigits(f) && f != []
    ensures CheckDecimalPrecision(s, |f|)
  {
    assert s[..|w|] == w && s[|w|] == '.' && s[|w| + 1..] == f;
  }

  /** A user's balances all follow the format of their currency. */
  predicate BalancesFollowFormat(u: User) {
    forall c :: c in Currencies && c.code in u.currencies ==> CheckDecimalPrecision(u.currencies[c.code], c.decimals)
  }

  lemma FixtureBalancesFollowCurrencyFormat()
    ensures forall u :: u in Users ==> BalancesFollowFormat(u)
  {
    AliceBalancesFollowFormat();
    BobBalancesFollowFormat();
    TomBalancesFollowFormat();
    MikeBalancesFollowFormat();
  }

  lemma AliceBalancesFollowFormat()
    ensures BalancesFollowFormat(Alice)
  {
    forall c | c in Currencies && c.code in Alice.currencies
      ensures CheckDecimalPrecision(Alice.currencies[c.code], c.decimals)
    {
      if c == Rub {
        FixedPointAmountAccepted("1000.000", "1000", "000");
      } else if c == Usd {
        FixedPointAmountAccepted("521.50", "521", "50");
      }
    }
  }

  lemma BobBalancesFollowFormat()
    ensures BalancesFollowFormat(Bob)
  {
    forall c | c in Currencies && c.code in Bob.currencies
      ensures CheckDecimalPrecision(Bob.currencies[c.code], c.decimals)
    {
      if c == Rub {
        FixedPointAmountAccepted("200000.000", "200000", "000");
      } else if c == Eur {
        FixedPointAmountAccepted("1521.10", "1521", "10");
      }
    }
  }

  lemma TomBalancesFollowFormat()
    ensures BalancesFollowFormat(Tom)
  {
    forall c | c in Currencies && c.code in Tom.currencies
      ensures CheckDecimalPrecision(Tom.currencies[c.code], c.decimals)
    {
      if c == Rub {
        FixedPointAmountAccepted("10.000", "10", "000");
      } else if c == Usd {
        FixedPointAmountAccepted("99.50", "99", "50");
      } else if c == Eur {
        FixedPointAmountAccepted("300.00", "300", "00");
      } else if c == Gel {
        FixedPointAmountAccepted("600.000", "600", "000");
      }
    }
  }

  lemma MikeBalancesFollowFormat()
    ensures BalancesFollowFormat(Mike)
  {
    forall c | c in Currencies && c.code in Mike.currencies
      ensures CheckDecimalPrecision(Mike.currencies[c.code], c.decimals)
    {
      if c == Usd {
        FixedPointAmountAccepted("21.10", "21", "10");
      } else if c == Eur {
        FixedPointAmountAccepted("439.90", "439", "90");
      } else if c == Gel {
        FixedPointAmountAccepted("960.000", "960", "000");
      }
    }
  }

  /** The form tests' scenario: Alice sends Russian rubles, whose ceiling is 1000.000. */
  lemma AliceRubleScenario()
    ensures "RUB" in Alice.currencies && Alice.currencies["RUB"] == "1000.000"
    ensures DecimalHint(Rub.decimals) == "0.000"
    ensures IsDecimalLiteral("999999.000") && IsDecimalLiteral("1000.000")
    ensures IsFirstGreater("999999.000", Alice.currencies["RUB"])
    ensures !IsFirstGreater(Alice.currencies["RUB"], "999999.000")
    ensures IsFirstGreater("1000.000", Alice.currencies["RUB"]) && IsFirstGreater(Alice.currencies["RUB"], "1000.000")
  {
    assert Alice.currencies["RUB"] == "1000.000";
    DecimalHintExamples();
    IsFirstGreaterCeilingExample();
  }
}

/** A worked value of the rate text stage on a price as the page prints it. */
module RateExample {
  import opened Rates

  /**
   * `R$ 5.123,45` becomes ` 5123.45`: the space after the symbol stays, and
   * `float()` skips it.
   */
  lemma BrazilianPrice(s: string)
    requires s == "R$ 5.123,45"
    ensures NormalizeRate(s) == " 5123.45"
  {
    var symbol, whole, cents := "R$ ", "5.123", ",45";
    PriceParts(s);
    PricePieces();
    NormalizeRateIsRateChars(s);
    RateCharsConcat(symbol + whole, cents);
    RateCharsConcat(symbol, whole);
  }

  /** The symbol, the integer part and the decimal part, each on its own. */
  lemma PricePieces()
    ensures RateChars("R$ ") == " " && RateChars("5.123") == "5123" && RateChars(",45") == ".45"
  {
  }

  /** The price is its symbol, its integer part and its decimal part. */
  lemma PriceParts(s: string)
    requires s == "R$ 5.123,45"
    ensures s == "R$ " + "5.123" + ",45"
  {
  }
}

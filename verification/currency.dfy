/**
 The default currency (`defaultCurrency`): the preferred codes "USD", "EUR"
 and the code of the first listed currency are intersected with the codes
 on offer, and the first listed currency carrying the winning code is taken.
 The ISO 4217 list itself is file data and arrives as a parameter.
 */
module Currency {
  import opened Collections

  datatype Currency = Currency(code: string, name: string)

  /** `_.pluck(currencies, 'code')` */
  function Codes(currencies: seq<Currency>): (r: seq<string>)
    ensures |r| == |currencies|
    ensures forall i :: 0 <= i < |currencies| ==> r[i] == currencies[i].code
  {
    seq(|currencies|, i requires 0 <= i < |currencies| => currencies[i].code)
  }

  /** Some listed currency has this code. */
  predicate Offers(currencies: seq<Currency>, code: string) {
    exists i :: 0 <= i < |currencies| && currencies[i].code == code
  }

  /** The `_.find` callback: `item.code == defaultCurrencyCode`. */
  function HasCode(code: string): Currency -> bool {
    (c: Currency) => c.code == code
  }

  /** Reference choice of code: USD if offered, else EUR if offered, else the first listed code. */
  function PreferredCode(currencies: seq<Currency>): string
    requires |currencies| > 0
  {
    if Offers(currencies, "USD") then "USD"
    else if Offers(currencies, "EUR") then "EUR"
    else currencies[0].code
  }

  /**
   `defaultCurrency`. The source reads `_.first(currencies).code`, so it
   needs at least one currency; the result is then always a listed entry,
   namely the first one whose code is the preferred code.
   */
  function DefaultCurrency(currencies: seq<Currency>): (r: Currency)
    requires |currencies| > 0
    ensures r.code == PreferredCode(currencies)
    ensures exists i :: 0 <= i < |currencies| && currencies[i] == r
                        && forall j :: 0 <= j < i ==> currencies[j].code != r.code
  {
    var wanted := ["USD", "EUR", currencies[0].code];
    var codes := Codes(currencies);
    assert codes[0] == currencies[0].code;
    assert [codes][0] == codes;
    ghost var k: nat := if Offers(currencies, "USD") then 0 else if Offers(currencies, "EUR") then 1 else 2;
    assert InAll(wanted[k], [codes]) by {
      if k == 0 {
        var i :| 0 <= i < |currencies| && currencies[i].code == "USD";
        assert codes[i] == "USD";
      } else if k == 1 {
        var i :| 0 <= i < |currencies| && currencies[i].code == "EUR";
        assert codes[i] == "EUR";
      }
    }
    assert forall j :: 0 <= j < k ==> !InAll(wanted[j], [codes]) by {
      forall j | 0 <= j < k ensures !InAll(wanted[j], [codes]) {
      }
    }
    IntersectionHead(wanted, [codes], k);
    var code := Intersection(wanted, [codes])[0];
    assert code == PreferredCode(currencies);
    assert HasCode(code)(currencies[0]) || Offers(currencies, code);
    match Find(currencies, HasCode(code))
    case Some(c) => c
    case None => currencies[0]
  }

  /** With USD and EUR both on offer, USD wins; with neither, the first listed currency. */
  lemma PreferenceOrder(currencies: seq<Currency>)
    requires |currencies| > 0
    ensures Offers(currencies, "USD") ==> DefaultCurrency(currencies).code == "USD"
    ensures !Offers(currencies, "USD") && Offers(currencies, "EUR") ==> DefaultCurrency(currencies).code == "EUR"
    ensures !Offers(currencies, "USD") && !Offers(currencies, "EUR") ==> DefaultCurrency(currencies) == currencies[0]
  {
  }
}

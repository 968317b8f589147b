/** Order pricing: addresses, customers and products as values, and an order
    whose product array grows by one element per added product. The price of an
    order is the sum of price times quantity over its products plus a flat
    shipping fee, 5 within the USA and 35 elsewhere. `decimal` amounts are
    `real`, which is exact like the base-10 `decimal`. */
module Orders {
  import opened Text

  datatype Address = Address(street: string, city: string, state: string, country: string)
  {
    /** `IsUSA()`: the country, lower-cased, is "usa". */
    function IsUSA(): (r: bool)
      ensures r ==> |country| == 3
      ensures country in {"usa", "USA", "Usa"} ==> r
    {
      ToLower(country) == "usa"
    }

    /** `GetFullAddress()`: the street, "city, state" and the country, on three lines. */
    function GetFullAddress(): (r: string)
      ensures r == Join([street, city + ", " + state, country], '\n')
    {
      var lines := [street, city + ", " + state, country];
      assert Join(lines[1..], '\n') == lines[1] + "\n" + country by {
        assert lines[1..][1..] == [country];
      }
      street + "\n" + city + ", " + state + "\n" + country
    }
  }

  /** An address is in the USA exactly when its country is "usa" spelt with any
      mix of capitals. */
  lemma IsUSALetters(a: Address)
    ensures a.IsUSA() <==> |a.country| == 3 && a.country[0] in "uU" && a.country[1] in "sS" && a.country[2] in "aA"
  {
    var c := a.country;
    if |c| == 3 {
      ToLowerAt(c, 0);
      ToLowerAt(c, 1);
      ToLowerAt(c, 2);
      assert ToLower(c) == [LowerChar(c[0]), LowerChar(c[1]), LowerChar(c[2])];
    }
  }

  datatype Customer = Customer(name: string, address: Address)
  {
    /** `IsUSACustomer()`: the customer's country is "usa" in any mix of cases. */
    function IsUSACustomer(): (r: bool)
      ensures var c := address.country;
        r <==> |c| == 3 && c[0] in "uU" && c[1] in "sS" && c[2] in "aA"
    {
      IsUSALetters(address);
      address.IsUSA()
    }
  }

  datatype Product = Product(name: string, productId: int, price: real, quantity: int)
  {
    /** `GetTotalCost()`: price times quantity. */
    function GetTotalCost(): (r: real)
      ensures price >= 0.0 && quantity >= 0 ==> r >= 0.0
    {
      price * quantity as real
    }
  }

  /** The sum of the products' total costs. */
  function Subtotal(ps: seq<Product>): real
  {
    if |ps| == 0 then 0.0 else Subtotal(ps[..|ps| - 1]) + ps[|ps| - 1].GetTotalCost()
  }

  /** The flat shipping fee. */
  function ShippingFee(c: Customer): real
  {
    if c.IsUSACustomer() then 5.0 else 35.0
  }

  /** What `CalculateTotalCost` returns for an order of `ps` to `c`. */
  function OrderTotal(c: Customer, ps: seq<Product>): real
  {
    Subtotal(ps) + ShippingFee(c)
  }

  /** The subtotal of two runs of products is the sum of their subtotals. */
  lemma {:induction false} SubtotalAppend(a: seq<Product>, b: seq<Product>)
    ensures Subtotal(a + b) == Subtotal(a) + Subtotal(b)
    decreases |b|
  {
    if |b| == 0 {
      assert a + b == a;
    } else {
      var init := b[..|b| - 1];
      SubtotalAppend(a, init);
      assert (a + b)[..|a + b| - 1] == a + init;
    }
  }

  /** An order's total is its subtotal plus the fee of its customer's country;
      an empty order costs exactly the fee, and adding products adds their costs. */
  lemma OrderTotalFacts(c: Customer, ps: seq<Product>, more: seq<Product>)
    ensures OrderTotal(c, []) == ShippingFee(c)
    ensures OrderTotal(c, ps + more) == OrderTotal(c, ps) + Subtotal(more)
    ensures ShippingFee(c) == 5.0 <==> c.address.IsUSA()
    ensures ShippingFee(c) == 35.0 <==> !c.address.IsUSA()
  {
    SubtotalAppend(ps, more);
  }

  /** With no negative price or quantity, the subtotal is not negative. */
  lemma {:induction false} SubtotalNonNegative(ps: seq<Product>)
    requires forall i | 0 <= i < |ps| :: ps[i].price >= 0.0 && ps[i].quantity >= 0
    ensures Subtotal(ps) >= 0.0
  {
    if |ps| > 0 {
      SubtotalNonNegative(ps[..|ps| - 1]);
      assert ps[|ps| - 1].GetTotalCost() >= 0.0;
    }
  }

  /** The line the packing label holds for one product (before its newline). */
  function PackingLine(p: Product): string
  {
    "Name: " + p.name + ", Product ID: " + IntToString(p.productId)
  }

  function PackingLines(ps: seq<Product>): (lines: seq<string>)
    ensures |lines| == |ps|
    ensures forall i | 0 <= i < |ps| :: lines[i] == PackingLine(ps[i])
  {
    if |ps| == 0 then [] else PackingLines(ps[..|ps| - 1]) + [PackingLine(ps[|ps| - 1])]
  }

  /** What `GetPackingLabel` returns for `ps`. */
  function PackingLabel(ps: seq<Product>): string
  {
    if |ps| == 0 then "" else PackingLabel(ps[..|ps| - 1]) + PackingLine(ps[|ps| - 1]) + "\n"
  }

  lemma {:induction false} PackingLabelIsJoin(ps: seq<Product>)
    ensures PackingLabel(ps) == Join(PackingLines(ps) + [""], '\n')
  {
    if |ps| > 0 {
      var init := ps[..|ps| - 1];
      PackingLabelIsJoin(init);
      JoinTerminated(PackingLines(init), PackingLine(ps[|ps| - 1]), '\n');
    }
  }

  /** Adding a line before the final empty piece of a join. */
  lemma JoinTerminated(before: seq<string>, line: string, sep: char)
    ensures Join(before + [line] + [""], sep) == Join(before + [""], sep) + line + [sep]
  {
    JoinSnoc(before + [line], "", sep);
    if |before| > 0 {
      JoinSnoc(before, "", sep);
      JoinSnoc(before, line, sep);
      var j := Join(before, sep);
      calc {
        Join(before + [line] + [""], sep);
        Join(before + [line], sep) + [sep] + "";
        j + [sep] + line + [sep];
        (j + [sep] + "") + line + [sep];
        Join(before + [""], sep) + line + [sep];
      }
    } else {
      assert before + [line] == [line] && before + [""] == [""];
    }
  }

  lemma PackingLineOneLine(p: Product)
    requires '\n' !in p.name
    ensures '\n' !in PackingLine(p)
  {
    var id := IntToString(p.productId);
    assert forall k | 0 <= k < |id| :: id[k] != '\n';
  }

  /** The packing label has one line per product, in product order, each ended
      by a newline (when no product name holds a newline). */
  lemma {:induction false} PackingLabelLines(ps: seq<Product>)
    requires forall i | 0 <= i < |ps| :: '\n' !in ps[i].name
    ensures Split(PackingLabel(ps), '\n') == PackingLines(ps) + [""]
  {
    PackingLabelIsJoin(ps);
    var lines := PackingLines(ps) + [""];
    forall k | 0 <= k < |lines| ensures '\n' !in lines[k] {
      if k < |ps| {
        PackingLineOneLine(ps[k]);
      }
    }
    SplitJoin(lines, '\n');
  }

  /** What `GetShippingLabel` returns for an order to `c`. */
  function ShippingLabel(c: Customer): string
  {
    "Customer Name: " + c.name + "\nAddress:\n" + c.address.GetFullAddress()
  }

  /** No field that goes on the shipping label holds a newline. */
  predicate LabelFieldsOneLine(c: Customer)
  {
    var a := c.address;
    '\n' !in c.name && '\n' !in a.street && '\n' !in a.city && '\n' !in a.state && '\n' !in a.country
  }

  /** The lines of a shipping label: the customer name, "Address:", the street,
      "city, state" and the country. */
  function ShippingLines(c: Customer): seq<string>
  {
    var a := c.address;
    ["Customer Name: " + c.name, "Address:", a.street, a.city + ", " + a.state, a.country]
  }

  /** The shipping label splits into exactly its five lines (when none of its
      fields holds a newline). */
  lemma ShippingLabelLines(c: Customer)
    ensures LabelFieldsOneLine(c) ==> Split(ShippingLabel(c), '\n') == ShippingLines(c)
  {
    if LabelFieldsOneLine(c) {
      var a := c.address;
      var lines := ShippingLines(c);
      assert Join(lines, '\n') == ShippingLabel(c) by {
        assert Join(lines[2..], '\n') == a.GetFullAddress() by {
          assert lines[2..] == [a.street, a.city + ", " + a.state, a.country];
        }
      }
      SplitJoin(lines, '\n');
    }
  }

  class Order {
    const customer: Customer
    var products: array<Product>

    constructor (customer: Customer)
      ensures this.customer == customer && fresh(products) && products[..] == []
    {
      this.customer := customer;
      products := new Product[0];
    }

    /** `AddProduct`: `Array.Resize` to one more element, then the product goes in
        the last slot. */
    method AddProduct(product: Product)
      modifies this
      ensures fresh(products)
      ensures products[..] == old(products[..]) + [product]
    {
      var current := products;
      var resized := new Product[current.Length + 1](_ => product);
      for i := 0 to current.Length
        invariant resized[..i] == current[..i]
      {
        resized[i] := current[i];
      }
      products := resized;
      products[products.Length - 1] := product;
    }

    /** `CalculateTotalCost`. */
    method CalculateTotalCost() returns (total: real)
      ensures total == OrderTotal(customer, products[..])
    {
      var totalCost := 0.0;
      for i := 0 to products.Length
        invariant totalCost == Subtotal(products[..i])
      {
        assert products[..i + 1][..i] == products[..i];
        totalCost := totalCost + products[i].GetTotalCost();
      }
      assert products[..products.Length] == products[..];
      var shippingCost := if customer.IsUSACustomer() then 5.0 else 35.0;
      total := totalCost + shippingCost;
    }

    /** `GetPackingLabel`. */
    method GetPackingLabel() returns (packingLabel: string)
      ensures packingLabel == PackingLabel(products[..])
    {
      packingLabel := "";
      for i := 0 to products.Length
        invariant packingLabel == PackingLabel(products[..i])
      {
        assert products[..i + 1][..i] == products[..i];
        packingLabel := packingLabel + PackingLine(products[i]) + "\n";
      }
      assert products[..products.Length] == products[..];
    }

    /** `GetShippingLabel`: the customer's name line, "Address:" and the full
        address, one per line. */
    function GetShippingLabel(): (text: string)
      ensures LabelFieldsOneLine(customer) ==> Split(text, '\n') == ShippingLines(customer)
    {
      ShippingLabelLines(customer);
      ShippingLabel(customer)
    }
  }
}

/**
 * The product-discount function of the discount app: given the cart and the
 * discount's stored configuration it decides whether one percentage discount
 * applies, and to which cart lines.
 */
module ProductDiscount {
  import opened Wrappers
  import opened NumberFormat

  // ---------------------------------------------------------------------------
  // Input

  /** The product's tag flags; a missing flag is falsy. */
  datatype Product = Product(allow: Option<bool>, deny: Option<bool>)

  /** What a cart line holds: a product variant or some other kind of merchandise. */
  datatype Merchandise =
    | ProductVariant(id: string, product: Product)
    | CustomProduct

  datatype CartLine = CartLine(merchandise: Merchandise)

  datatype BuyerIdentity = BuyerIdentity(isAuthenticated: bool)

  datatype Cart = Cart(buyerIdentity: Option<BuyerIdentity>, lines: seq<CartLine>)

  /**
   * The configuration object stored as JSON in the discount's metafield.
   * `percentage` is missing when the key is absent or `null`; `sessionStatus`
   * holds only string values, since no other value compares equal to
   * "Authenticated". The tag lists are stored too but never read here.
   */
  datatype Configuration = Configuration(percentage: Option<int>, sessionStatus: Option<string>)

  /** The metafield's value after `JSON.parse`. */
  datatype ConfigDocument = Parsed(config: Configuration) | Malformed

  datatype Metafield = Metafield(value: Option<ConfigDocument>)

  datatype DiscountNode = DiscountNode(metafield: Option<Metafield>)

  datatype Input = Input(discountNode: Option<DiscountNode>, cart: Cart)

  // ---------------------------------------------------------------------------
  // Output

  datatype DiscountApplicationStrategy = First

  /** A discount target: the product variant of one cart line. */
  datatype Target = ProductVariantTarget(id: string)

  /** One discount entry: its targets and its percentage value as a string. */
  datatype Discount = Discount(targets: seq<Target>, percentage: string)

  datatype FunctionResult = FunctionResult(
    discountApplicationStrategy: DiscountApplicationStrategy,
    discounts: seq<Discount>)

  /** What the function throws instead of returning. */
  datatype Exception =
    | SyntaxError  // `JSON.parse` rejects the metafield's value
    | TypeError    // `percentage.toString()` on a missing percentage

  type Outcome = Result<FunctionResult, Exception>

  const EMPTY_DISCOUNT: FunctionResult := FunctionResult(First, [])

  const AUTHENTICATED: string := "Authenticated"

  // ---------------------------------------------------------------------------
  // Configuration

  /** JavaScript truthiness of an optional boolean: a missing flag counts as false. */
  predicate Truthy(b: Option<bool>)
    ensures b.None? ==> !Truthy(b)
    ensures b.Some? ==> (Truthy(b) <==> b.value)
  {
    b == Some(true)
  }

  /** The configuration `JSON.parse` yields from the metafield, `{}` when there is none. */
  function ReadConfiguration(input: Input): (r: Result<Configuration, Exception>)
    ensures r.Failure? <==>
      (input.discountNode.Some? && input.discountNode.value.metafield.Some? &&
       input.discountNode.value.metafield.value.value == Some(Malformed))
    ensures r.Failure? ==> r.error == SyntaxError
    ensures input.discountNode.None? || input.discountNode.value.metafield.None? ||
            input.discountNode.value.metafield.value.value.None? ==>
      r == Success(Configuration(None, None))
    ensures forall c: Configuration ::
      input.discountNode.Some? && input.discountNode.value.metafield.Some? &&
      input.discountNode.value.metafield.value.value == Some(Parsed(c)) ==>
      r == Success(c)
  {
    var document: Option<ConfigDocument> :=
      match input.discountNode
      case None => None
      case Some(node) =>
        match node.metafield
        case None => None
        case Some(field) => field.value;
    match document
    case None => Success(Configuration(None, None))
    case Some(Parsed(config)) => Success(config)
    case Some(Malformed) => Failure(SyntaxError)
  }

  // ---------------------------------------------------------------------------
  // Targets

  /** A line is discounted when it holds a variant whose product is allowed and not denied. */
  predicate Qualifies(line: CartLine)
    ensures Qualifies(line) ==> line.merchandise.ProductVariant?
    ensures line.merchandise.ProductVariant? && line.merchandise.product.deny == Some(true) ==>
      !Qualifies(line)
    ensures line.merchandise.ProductVariant? && line.merchandise.product.deny != Some(true) ==>
      (Qualifies(line) <==> line.merchandise.product.allow == Some(true))
  {
    && line.merchandise.ProductVariant?
    && !Truthy(line.merchandise.product.deny)
    && Truthy(line.merchandise.product.allow)
  }

  function ToTarget(line: CartLine): (t: Target)
    requires line.merchandise.ProductVariant?
    ensures t.id == line.merchandise.id
  {
    ProductVariantTarget(line.merchandise.id)
  }

  /** The targets of the qualifying lines, in cart-line order. */
  function Targets(lines: seq<CartLine>): (ts: seq<Target>)
    ensures |ts| <= |lines|
    ensures ts == [] <==> forall i :: 0 <= i < |lines| ==> !Qualifies(lines[i])
    decreases |lines|
  {
    if lines == [] then []
    else
      (if Qualifies(lines[0]) then [ToTarget(lines[0])] else []) + Targets(lines[1..])
  }

  /** Each line is judged on its own: the targets of a concatenation are the concatenated targets. */
  lemma {:induction false} TargetsAppend(a: seq<CartLine>, b: seq<CartLine>)
    ensures Targets(a + b) == Targets(a) + Targets(b)
    decreases |a|
  {
    if a != [] {
      assert (a + b)[0] == a[0] && (a + b)[1..] == a[1..] + b;
      TargetsAppend(a[1..], b);
    } else {
      assert a + b == b;
    }
  }

  /** `idx` lists, in increasing order, exactly the positions of the qualifying lines. */
  ghost predicate IsQualifyingSelection(lines: seq<CartLine>, idx: seq<nat>) {
    && (forall k :: 0 <= k < |idx| ==> idx[k] < |lines| && Qualifies(lines[idx[k]]))
    && (forall k, j :: 0 <= k < j < |idx| ==> idx[k] < idx[j])
    && (forall i :: 0 <= i < |lines| && Qualifies(lines[i]) ==> i in idx)
  }

  /** The positions of the qualifying lines, in increasing order. */
  function QualifyingPositions(lines: seq<CartLine>): (idx: seq<nat>)
    ensures IsQualifyingSelection(lines, idx)
    decreases |lines|
  {
    if lines == [] then []
    else
      var n := |lines| - 1;
      var init := QualifyingPositions(lines[..n]);
      assert forall k :: 0 <= k < |init| ==> lines[init[k]] == lines[..n][init[k]];
      assert forall i :: 0 <= i < n ==> lines[i] == lines[..n][i];
      init + (if Qualifies(lines[n]) then [n] else [])
  }

  /** Target k is the variant of the k-th qualifying line: one target per qualifying line, in cart order. */
  lemma {:induction false} TargetsFollowLines(lines: seq<CartLine>)
    ensures |Targets(lines)| == |QualifyingPositions(lines)|
    ensures forall k :: 0 <= k < |Targets(lines)| ==>
      QualifyingPositions(lines)[k] < |lines| &&
      Targets(lines)[k] == ToTarget(lines[QualifyingPositions(lines)[k]])
    decreases |lines|
  {
    if lines != [] {
      var n := |lines| - 1;
      assert lines == lines[..n] + [lines[n]];
      TargetsAppend(lines[..n], [lines[n]]);
      TargetsFollowLines(lines[..n]);
      var init := QualifyingPositions(lines[..n]);
      forall k | 0 <= k < |init|
        ensures lines[init[k]] == lines[..n][init[k]]
      {
      }
    }
  }

  /** A variant is targeted exactly when some qualifying line holds it. */
  lemma {:induction false} TargetMembership(lines: seq<CartLine>, id: string)
    ensures ProductVariantTarget(id) in Targets(lines) <==>
      exists i :: 0 <= i < |lines| && Qualifies(lines[i]) && lines[i].merchandise.id == id
    decreases |lines|
  {
    if lines != [] {
      TargetMembership(lines[1..], id);
      if exists i :: 1 <= i < |lines| && Qualifies(lines[i]) && lines[i].merchandise.id == id {
        var i :| 1 <= i < |lines| && Qualifies(lines[i]) && lines[i].merchandise.id == id;
        assert lines[1..][i - 1] == lines[i];
      }
      if exists i :: 0 <= i < |lines| - 1 && Qualifies(lines[1..][i]) && lines[1..][i].merchandise.id == id {
        var i :| 0 <= i < |lines| - 1 && Qualifies(lines[1..][i]) && lines[1..][i].merchandise.id == id;
        assert lines[i + 1] == lines[1..][i];
      }
    }
  }

  /** A line whose product is denied contributes nothing, even when it is also allowed. */
  lemma DeniedLineIgnored(before: seq<CartLine>, line: CartLine, after: seq<CartLine>)
    requires line.merchandise.ProductVariant? && Truthy(line.merchandise.product.deny)
    ensures Targets(before + [line] + after) == Targets(before + after)
  {
    TargetsAppend(before + [line], after);
    TargetsAppend(before, [line]);
    TargetsAppend(before, after);
  }

  // ---------------------------------------------------------------------------
  // Decision

  /** `buyerIdentity?.isAuthenticated`: a missing identity counts as not authenticated. */
  predicate BuyerAuthenticated(cart: Cart)
    ensures BuyerAuthenticated(cart) ==> cart.buyerIdentity.Some?
    ensures cart.buyerIdentity.Some? ==>
      (BuyerAuthenticated(cart) <==> cart.buyerIdentity.value.isAuthenticated)
  {
    cart.buyerIdentity.Some? && cart.buyerIdentity.value.isAuthenticated
  }

  /** The one-discount result over `targets`; `toString` of a missing percentage throws. */
  function ApplyDiscount(targets: seq<Target>, percentage: Option<int>): (r: Outcome)
    ensures r.Failure? <==> percentage.None?
    ensures r.Failure? ==> r.error == TypeError
    ensures r.Success? ==>
      && r.value.discountApplicationStrategy == First
      && |r.value.discounts| == 1
      && r.value.discounts[0].targets == targets
      && Parse(r.value.discounts[0].percentage) == percentage
  {
    match percentage
    case None => Failure(TypeError)
    case Some(p) =>
      ParseRender(p);
      Success(FunctionResult(First, [Discount(targets, Render(p))]))
  }

  /** The default-exported function: the discount, if any, for this cart. */
  function Evaluate(input: Input): (r: Outcome)
    ensures r.Success? ==> r.value.discountApplicationStrategy == First && |r.value.discounts| <= 1
    ensures r.Success? && r.value.discounts != [] ==>
      && r.value.discounts[0].targets == Targets(input.cart.lines)
      && r.value.discounts[0].targets != []
    ensures r.Success? && r.value.discounts == [] ==> r.value == EMPTY_DISCOUNT
    ensures r == Failure(SyntaxError) <==> ReadConfiguration(input).Failure?
  {
    match ReadConfiguration(input)
    case Failure(e) => Failure(e)
    case Success(configuration) =>
      var targets := Targets(input.cart.lines);
      if configuration.sessionStatus == Some(AUTHENTICATED) then
        if |targets| == 0 then
          Success(EMPTY_DISCOUNT)
        else if BuyerAuthenticated(input.cart) then
          ApplyDiscount(targets, configuration.percentage)
        else
          Success(EMPTY_DISCOUNT)
      else
        if |targets| == 0 then
          Success(EMPTY_DISCOUNT)
        else
          ApplyDiscount(targets, configuration.percentage)
  }

  /**
   * Flat reference for the nested branches: a discount is due when some line
   * qualifies and, under the "Authenticated" session status, the buyer is
   * authenticated.
   */
  predicate DiscountDue(configuration: Configuration, cart: Cart) {
    && (exists i :: 0 <= i < |cart.lines| && Qualifies(cart.lines[i]))
    && (configuration.sessionStatus == Some(AUTHENTICATED) ==> BuyerAuthenticated(cart))
  }

  /** Evaluation against the flat decision: the empty result exactly when no discount is due. */
  lemma EvaluateDecides(input: Input)
    requires ReadConfiguration(input).Success?
    ensures var configuration := ReadConfiguration(input).value;
      Evaluate(input) ==
        if DiscountDue(configuration, input.cart)
        then ApplyDiscount(Targets(input.cart.lines), configuration.percentage)
        else Success(EMPTY_DISCOUNT)
  {
  }

  /** With no qualifying line the result is empty, whatever the session status and the buyer. */
  lemma NoQualifyingLineIsEmpty(input: Input)
    requires ReadConfiguration(input).Success?
    requires forall i :: 0 <= i < |input.cart.lines| ==> !Qualifies(input.cart.lines[i])
    ensures Evaluate(input) == Success(EMPTY_DISCOUNT)
  {
  }

  /** Under the "Authenticated" status an unauthenticated or unidentified buyer gets nothing. */
  lemma AuthenticatedStatusNeedsBuyer(input: Input)
    requires ReadConfiguration(input).Success?
    requires ReadConfiguration(input).value.sessionStatus == Some(AUTHENTICATED)
    requires !BuyerAuthenticated(input.cart)
    ensures Evaluate(input) == Success(EMPTY_DISCOUNT)
  {
  }

  /** Under the "Authenticated" status an authenticated buyer gets one discount over all targets. */
  lemma AuthenticatedBuyerDiscounted(input: Input, percentage: int)
    requires ReadConfiguration(input).Success?
    requires ReadConfiguration(input).value == Configuration(Some(percentage), Some(AUTHENTICATED))
    requires BuyerAuthenticated(input.cart)
    requires exists i :: 0 <= i < |input.cart.lines| && Qualifies(input.cart.lines[i])
    ensures Evaluate(input) ==
      Success(FunctionResult(First, [Discount(Targets(input.cart.lines), Render(percentage))]))
  {
  }

  /** Under any other status a qualifying cart gets one discount, whoever the buyer is. */
  lemma OtherStatusDiscounted(input: Input, percentage: int)
    requires ReadConfiguration(input).Success?
    requires ReadConfiguration(input).value.percentage == Some(percentage)
    requires ReadConfiguration(input).value.sessionStatus != Some(AUTHENTICATED)
    requires exists i :: 0 <= i < |input.cart.lines| && Qualifies(input.cart.lines[i])
    ensures Evaluate(input) ==
      Success(FunctionResult(First, [Discount(Targets(input.cart.lines), Render(percentage))]))
  {
  }

  /** Under any status other than "Authenticated" the buyer's identity does not matter. */
  lemma OtherStatusIgnoresBuyer(input: Input, buyer: Option<BuyerIdentity>)
    requires ReadConfiguration(input).Success?
    requires ReadConfiguration(input).value.sessionStatus != Some(AUTHENTICATED)
    ensures Evaluate(input.(cart := input.cart.(buyerIdentity := buyer))) == Evaluate(input)
  {
  }

  /**
   * Without a stored configuration (`{}`) the non-authenticated branch runs:
   * an empty result when no line qualifies, else the missing percentage throws.
   */
  lemma MissingConfiguration(input: Input)
    requires input.discountNode.None? || input.discountNode.value.metafield.None? ||
             input.discountNode.value.metafield.value.value.None?
    ensures Evaluate(input) ==
      if exists i :: 0 <= i < |input.cart.lines| && Qualifies(input.cart.lines[i])
      then Failure(TypeError)
      else Success(EMPTY_DISCOUNT)
  {
  }

  /** The function throws exactly on a malformed metafield, or when a due discount has no percentage. */
  lemma EvaluateFails(input: Input)
    ensures Evaluate(input).Failure? <==>
      || ReadConfiguration(input).Failure?
      || (var configuration := ReadConfiguration(input).value;
          DiscountDue(configuration, input.cart) && configuration.percentage.None?)
  {
  }
}

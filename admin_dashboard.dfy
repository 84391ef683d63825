/** The administration screen: the product form with its slug generation,
    validation and save, the order status changes and the figures at the
    top of the page. */
module AdminDashboard {
  import opened Wrappers
  import opened Js
  import opened Domain

  // ---------------------------------------------------------------------
  // Slugs
  // ---------------------------------------------------------------------

  /** U+0300..U+036F, the combining diacritical marks NFD splits off. */
  predicate IsCombiningMark(c: char) { '\U{0300}' <= c <= '\U{036F}' }

  predicate NotCombiningMark(c: char) { !IsCombiningMark(c) }

  /** `[a-z0-9\s-]` */
  predicate IsSlugSource(c: char) { 'a' <= c <= 'z' || '0' <= c <= '9' || IsWhitespace(c) || c == '-' }

  /** The characters a generated slug is made of. */
  predicate IsSlugChar(c: char) { 'a' <= c <= 'z' || '0' <= c <= '9' || c == '-' }

  predicate IsSlug(s: string) { forall i :: 0 <= i < |s| ==> IsSlugChar(s[i]) }

  /** `.replace(/\s+/g, '-')`: each run of white space becomes one '-'. */
  function HyphenateWhitespace(s: string): (r: string)
    ensures NoWhitespace(r)
    decreases |s|
  {
    if s == [] then []
    else if IsWhitespace(s[0]) then "-" + HyphenateWhitespace(s[RunLength(s, IsWhitespace)..])
    else [s[0]] + HyphenateWhitespace(s[1..])
  }

  /** `generateSlug`; `fold` stands for `.toLowerCase().normalize('NFD')`. */
  function GenerateSlug(fold: string -> string, name: string): string {
    var letters := Keep(Keep(fold(name), NotCombiningMark), IsSlugSource);
    Trim(HyphenateWhitespace(letters))
  }

  lemma {:induction false} HyphenateKeepsSlugChars(s: string)
    requires forall i :: 0 <= i < |s| ==> IsSlugSource(s[i])
    ensures IsSlug(HyphenateWhitespace(s))
  {
    if s != [] {
      if IsWhitespace(s[0]) {
        var n := RunLength(s, IsWhitespace);
        HyphenateKeepsSlugChars(s[n..]);
      } else {
        HyphenateKeepsSlugChars(s[1..]);
      }
    }
  }

  lemma {:induction false} HyphenateWithoutWhitespace(s: string)
    requires NoWhitespace(s)
    ensures HyphenateWhitespace(s) == s
  {
    if s != [] {
      HyphenateWithoutWhitespace(s[1..]);
    }
  }

  /** A run of white space followed by text that does not start with white
      space becomes a single '-'. */
  lemma HyphenateRun(w: string, t: string)
    requires w != [] && IsBlank(w)
    requires t == [] || !IsWhitespace(t[0])
    ensures HyphenateWhitespace(w + t) == "-" + HyphenateWhitespace(t)
  {
    RunLengthOf(w, t, IsWhitespace);
    assert (w + t)[|w|..] == t;
  }

  /** A slug is made of a-z, 0-9 and '-' only; dropping the combining marks
      first makes no difference, since the second filter drops them too. */
  lemma SlugChars(fold: string -> string, name: string)
    ensures IsSlug(GenerateSlug(fold, name))
    ensures Keep(Keep(fold(name), NotCombiningMark), IsSlugSource) == Keep(fold(name), IsSlugSource)
  {
    var letters := Keep(Keep(fold(name), NotCombiningMark), IsSlugSource);
    HyphenateKeepsSlugChars(letters);
    TrimWithoutWhitespace(HyphenateWhitespace(letters));
    KeepKeep(fold(name), NotCombiningMark, IsSlugSource);
  }

  /** Generating the slug of a slug changes nothing, for a `fold` that
      leaves slug text alone (as lower-casing and NFD do). */
  lemma SlugIdempotent(fold: string -> string, name: string)
    requires fold(GenerateSlug(fold, name)) == GenerateSlug(fold, name)
    ensures GenerateSlug(fold, GenerateSlug(fold, name)) == GenerateSlug(fold, name)
  {
    var s := GenerateSlug(fold, name);
    SlugChars(fold, name);
    KeepAll(s, NotCombiningMark);
    KeepAll(s, IsSlugSource);
    assert NoWhitespace(s);
    HyphenateWithoutWhitespace(s);
    TrimWithoutWhitespace(s);
  }

  lemma KeepFirst(s: string, p: char -> bool)
    requires s != [] && p(s[0])
    ensures Keep(s, p) != [] && Keep(s, p)[0] == s[0]
  {
  }

  /** `trim` runs after the white space is replaced, so a name that starts
      with white space gets a slug that starts with '-'. Lower-casing and
      NFD keep leading white space, so the condition is stated on the
      folded name, whatever letters the name holds. */
  lemma LeadingSpaceBecomesHyphen(fold: string -> string, name: string)
    requires fold(name) != [] && IsWhitespace(fold(name)[0])
    ensures GenerateSlug(fold, name) != [] && GenerateSlug(fold, name)[0] == '-'
  {
    var folded := fold(name);
    KeepFirst(folded, NotCombiningMark);
    var marksGone := Keep(folded, NotCombiningMark);
    KeepFirst(marksGone, IsSlugSource);
    var letters := Keep(marksGone, IsSlugSource);
    var hyphenated := HyphenateWhitespace(letters);
    assert hyphenated[0] == '-';
    TrimWithoutWhitespace(hyphenated);
    assert GenerateSlug(fold, name) == Trim(hyphenated);
  }

  lemma KeepLast(s: string, p: char -> bool)
    requires s != [] && p(s[|s| - 1])
    ensures Keep(s, p) != [] && Keep(s, p)[|Keep(s, p)| - 1] == s[|s| - 1]
  {
    var init, last := s[..|s| - 1], [s[|s| - 1]];
    assert s == init + last;
    KeepConcat(init, last, p);
    assert Keep(last, p) == last by {
      assert last[1..] == [];
    }
  }

  /** Text ending in white space is hyphenated to text ending in '-'. */
  lemma {:induction false} HyphenateTrailingSpace(s: string)
    requires s != [] && IsWhitespace(s[|s| - 1])
    ensures var h := HyphenateWhitespace(s); h != [] && h[|h| - 1] == '-'
  {
    var h := HyphenateWhitespace(s);
    if IsWhitespace(s[0]) {
      var n := RunLength(s, IsWhitespace);
      var t := s[n..];
      assert h == "-" + HyphenateWhitespace(t);
      if t != [] {
        assert t[|t| - 1] == s[|s| - 1];
        HyphenateTrailingSpace(t);
      }
    } else {
      var t := s[1..];
      assert h == [s[0]] + HyphenateWhitespace(t);
      assert t != [] && t[|t| - 1] == s[|s| - 1];
      HyphenateTrailingSpace(t);
    }
  }

  /** Likewise a name whose folded form ends with white space gets a slug
      that ends with '-'. */
  lemma TrailingSpaceBecomesHyphen(fold: string -> string, name: string)
    requires fold(name) != [] && IsWhitespace(fold(name)[|fold(name)| - 1])
    ensures var slug := GenerateSlug(fold, name); slug != [] && slug[|slug| - 1] == '-'
  {
    var folded := fold(name);
    KeepLast(folded, NotCombiningMark);
    var marksGone := Keep(folded, NotCombiningMark);
    KeepLast(marksGone, IsSlugSource);
    var letters := Keep(marksGone, IsSlugSource);
    HyphenateTrailingSpace(letters);
    var hyphenated := HyphenateWhitespace(letters);
    TrimWithoutWhitespace(hyphenated);
    assert GenerateSlug(fold, name) == Trim(hyphenated);
  }

  // ---------------------------------------------------------------------
  // The product form
  // ---------------------------------------------------------------------

  datatype ProductForm = ProductForm(
    name: string,
    description: string,
    price: string,
    eventDate: string,
    status: ProductStatus,
    slug: string,
    maxQuantity: string,
    imageUrl: string)

  const EmptyForm: ProductForm := ProductForm("", "", "", "", Active, "", "", "")

  /** `max_quantity` as sent: null for an empty field, else what `parseInt`
      reads, which may be NaN. */
  datatype MaxQuantity = NoLimit | Limit(n: int) | NotANumber

  /** `productData`, the record written to the store. */
  datatype ProductData = ProductData(
    name: string,
    description: string,
    price: real,
    eventDate: Option<string>,
    status: ProductStatus,
    slug: string,
    maxQuantity: MaxQuantity,
    imageUrl: Option<string>)

  const RequiredMessage: string := "Nome e preço são obrigatórios"

  /** The `max_quantity` field turned into what is sent. */
  function MaxQuantityOf(field: string): MaxQuantity {
    if field == "" then NoLimit
    else match ParseInt(field, 0)
      case None => NotANumber
      case Some(n) => Limit(n)
  }

  /** Validation and record building of `handleProductSubmit`: a name and a
      price that parses to a number other than 0 are required. */
  function BuildProductData(fold: string -> string, form: ProductForm): (r: Result<ProductData, string>)
    ensures r.Err? <==> form.name == "" || ParseFloat(form.price) == None || ParseFloat(form.price) == Some(0.0)
    ensures r.Err? ==> r.error == RequiredMessage
  {
    var slug := if form.slug != "" then form.slug else GenerateSlug(fold, form.name);
    var price := ParseFloat(form.price);
    if form.name == "" || price.None? || price.value == 0.0 then Err(RequiredMessage)
    else Ok(ProductData(
      form.name,
      form.description,
      price.value,
      if form.eventDate == "" then None else Some(form.eventDate),
      form.status,
      slug,
      MaxQuantityOf(form.maxQuantity),
      if form.imageUrl == "" then None else Some(form.imageUrl)))
  }

  /** A negative price passes validation. */
  lemma NegativePriceAccepted(fold: string -> string, form: ProductForm, d: string)
    requires form.name != "" && d != [] && AllDigits(d) && DigitValue(d) > 0
    requires form.price == "-" + d
    ensures BuildProductData(fold, form).Ok?
    ensures BuildProductData(fold, form).value.price == -(DigitValue(d) as real)
  {
    ParseFloatOfDigits(d);
    ParseFloatOfMinus(form.price, d);
  }

  /** The slug typed in the form is kept as typed; an empty one is
      generated from the name. */
  lemma SubmittedSlug(fold: string -> string, form: ProductForm)
    requires BuildProductData(fold, form).Ok?
    ensures form.slug != "" ==> BuildProductData(fold, form).value.slug == form.slug
    ensures form.slug == "" ==> IsSlug(BuildProductData(fold, form).value.slug)
  {
    SlugChars(fold, form.name);
  }

  /** `handleEditProduct`'s form for a product; `isoMinute` stands for
      `new Date(d).toISOString().slice(0, 16)`. */
  function EditForm(p: Product, isoMinute: string -> string): ProductForm {
    ProductForm(
      p.name,
      if p.description.Some? then p.description.value else "",
      CentsToJsString(p.priceCents),
      if p.eventDate.Some? && p.eventDate.value != "" then isoMinute(p.eventDate.value) else "",
      p.status,
      p.slug,
      if p.maxQuantity.Some? then IntToString(p.maxQuantity.value) else "",
      if p.imageUrl.Some? then p.imageUrl.value else "")
  }

  /** Opening a product for editing and saving it unchanged writes the
      product back: same name, status and slug, the price in reais, the
      same limit, and the same description, image and date up to null
      becoming "" (and the date put in ISO form). */
  lemma EditThenSubmit(fold: string -> string, isoMinute: string -> string, p: Product)
    requires p.name != "" && p.priceCents != 0 && p.slug != ""
    ensures var r := BuildProductData(fold, EditForm(p, isoMinute));
            && r.Ok?
            && r.value.name == p.name && r.value.status == p.status && r.value.slug == p.slug
            && r.value.price == p.priceCents as real / 100.0
            && r.value.maxQuantity == (if p.maxQuantity.Some? then Limit(p.maxQuantity.value) else NoLimit)
            && r.value.description == (if p.description.Some? then p.description.value else "")
            && (p.imageUrl.Some? && p.imageUrl.value != "" ==> r.value.imageUrl == p.imageUrl)
            && (p.imageUrl == None ==> r.value.imageUrl == None)
            && (p.eventDate == None ==> r.value.eventDate == None)
  {
    ParseFloatOfCents(p.priceCents);
    if p.maxQuantity.Some? {
      ParseIntOfIntToString(p.maxQuantity.value);
    }
  }

  // ---------------------------------------------------------------------
  // Order status
  // ---------------------------------------------------------------------

  /** The update `updateOrderStatus` sends: only `payment_status`, for the
      order with this id. */
  datatype StatusUpdate = StatusUpdate(orderId: string, paymentStatus: PaymentStatus)

  /** What the store does with it. */
  function ApplyStatusUpdate(orders: seq<Order>, u: StatusUpdate): (r: seq<Order>)
    ensures |r| == |orders|
  {
    if orders == [] then []
    else
      var o := orders[0];
      [if o.id == u.orderId then o.(paymentStatus := u.paymentStatus) else o]
      + ApplyStatusUpdate(orders[1..], u)
  }

  /** The update changes the payment status of the orders with that id and
      nothing else. */
  lemma {:induction false} StatusUpdateEffect(orders: seq<Order>, u: StatusUpdate, i: int)
    requires 0 <= i < |orders|
    ensures orders[i].id == u.orderId ==>
              ApplyStatusUpdate(orders, u)[i] == orders[i].(paymentStatus := u.paymentStatus)
    ensures orders[i].id != u.orderId ==> ApplyStatusUpdate(orders, u)[i] == orders[i]
  {
    if i > 0 {
      StatusUpdateEffect(orders[1..], u, i - 1);
    }
  }

  lemma {:induction false} ApplyStatusUpdateConcat(a: seq<Order>, b: seq<Order>, u: StatusUpdate)
    ensures ApplyStatusUpdate(a + b, u) == ApplyStatusUpdate(a, u) + ApplyStatusUpdate(b, u)
  {
    if a != [] {
      assert (a + b)[0] == a[0] && (a + b)[1..] == a[1..] + b;
      ApplyStatusUpdateConcat(a[1..], b, u);
    } else {
      assert a + b == b;
    }
  }

  lemma {:induction false} ApplyStatusUpdateMisses(a: seq<Order>, u: StatusUpdate)
    requires forall k :: 0 <= k < |a| ==> a[k].id != u.orderId
    ensures ApplyStatusUpdate(a, u) == a
  {
    if a != [] {
      ApplyStatusUpdateMisses(a[1..], u);
    }
  }

  // ---------------------------------------------------------------------
  // Figures
  // ---------------------------------------------------------------------

  function PaidOrders(orders: seq<Order>): (r: seq<Order>)
    ensures forall k :: 0 <= k < |r| ==> r[k].paymentStatus == Paid
  {
    if orders == [] then []
    else (if orders[0].paymentStatus == Paid then [orders[0]] else []) + PaidOrders(orders[1..])
  }

  function PendingOrders(orders: seq<Order>): (r: seq<Order>)
    ensures |r| <= |orders|
    ensures forall k :: 0 <= k < |r| ==> r[k].paymentStatus == Pending
  {
    if orders == [] then []
    else (if orders[0].paymentStatus == Pending then [orders[0]] else []) + PendingOrders(orders[1..])
  }

  /** `reduce((sum, order) => sum + order.total_amount, 0)` */
  function SumTotals(orders: seq<Order>): int {
    if orders == [] then 0 else orders[0].totalAmount + SumTotals(orders[1..])
  }

  datatype Stats = Stats(totalProducts: nat, totalOrders: nat, totalRevenue: int, pendingOrders: nat)

  function ComputeStats(products: seq<Product>, orders: seq<Order>): Stats {
    Stats(|products|, |orders|, SumTotals(PaidOrders(orders)), |PendingOrders(orders)|)
  }

  /** An order's share of the revenue and of the pending count. */
  function PaidShare(o: Order): int { if o.paymentStatus == Paid then o.totalAmount else 0 }
  function PendingShare(o: Order): nat { if o.paymentStatus == Pending then 1 else 0 }

  lemma {:induction false} PaidConcat(a: seq<Order>, b: seq<Order>)
    ensures PaidOrders(a + b) == PaidOrders(a) + PaidOrders(b)
  {
    if a != [] {
      assert (a + b)[0] == a[0] && (a + b)[1..] == a[1..] + b;
      PaidConcat(a[1..], b);
    } else {
      assert a + b == b;
    }
  }

  lemma {:induction false} PendingConcat(a: seq<Order>, b: seq<Order>)
    ensures PendingOrders(a + b) == PendingOrders(a) + PendingOrders(b)
  {
    if a != [] {
      assert (a + b)[0] == a[0] && (a + b)[1..] == a[1..] + b;
      PendingConcat(a[1..], b);
    } else {
      assert a + b == b;
    }
  }

  lemma FiguresConcat(a: seq<Order>, b: seq<Order>)
    ensures SumTotals(PaidOrders(a + b)) == SumTotals(PaidOrders(a)) + SumTotals(PaidOrders(b))
    ensures |PendingOrders(a + b)| == |PendingOrders(a)| + |PendingOrders(b)|
  {
    PaidConcat(a, b);
    PendingConcat(a, b);
    SumTotalsConcat(PaidOrders(a), PaidOrders(b));
  }

  lemma {:induction false} SumTotalsConcat(a: seq<Order>, b: seq<Order>)
    ensures SumTotals(a + b) == SumTotals(a) + SumTotals(b)
  {
    if a != [] {
      assert (a + b)[0] == a[0] && (a + b)[1..] == a[1..] + b;
      SumTotalsConcat(a[1..], b);
    } else {
      assert a + b == b;
    }
  }

  lemma FiguresOfOne(o: Order)
    ensures SumTotals(PaidOrders([o])) == PaidShare(o)
    ensures |PendingOrders([o])| == PendingShare(o)
  {
    assert [o][1..] == [];
  }

  /** Revenue counts only paid orders and the pending count never exceeds
      the number of orders. */
  lemma StatsBounds(products: seq<Product>, orders: seq<Order>)
    ensures var s := ComputeStats(products, orders);
            s.pendingOrders <= s.totalOrders == |orders| && s.totalProducts == |products|
    ensures (forall k :: 0 <= k < |orders| ==> orders[k].paymentStatus != Paid)
            ==> ComputeStats(products, orders).totalRevenue == 0
  {
    if forall k :: 0 <= k < |orders| ==> orders[k].paymentStatus != Paid {
      NoPaidNoRevenue(orders);
    }
  }

  lemma {:induction false} NoPaidNoRevenue(orders: seq<Order>)
    requires forall k :: 0 <= k < |orders| ==> orders[k].paymentStatus != Paid
    ensures PaidOrders(orders) == []
  {
    if orders != [] {
      NoPaidNoRevenue(orders[1..]);
    }
  }

  /** Changing the status of the one order with a given id moves that
      order's total in or out of the revenue and its count in or out of the
      pending figure; nothing else changes. */
  lemma StatusChangeFigures(products: seq<Product>, orders: seq<Order>, i: int, s: PaymentStatus)
    requires 0 <= i < |orders|
    requires forall k :: 0 <= k < |orders| && k != i ==> orders[k].id != orders[i].id
    ensures var o := orders[i];
            var before := ComputeStats(products, orders);
            var after := ComputeStats(products, ApplyStatusUpdate(orders, StatusUpdate(o.id, s)));
            && after.totalRevenue == before.totalRevenue - PaidShare(o) + PaidShare(o.(paymentStatus := s))
            && after.pendingOrders + PendingShare(o) == before.pendingOrders + PendingShare(o.(paymentStatus := s))
            && after.totalOrders == before.totalOrders && after.totalProducts == before.totalProducts
  {
    var o := orders[i];
    var u := StatusUpdate(o.id, s);
    var a, b := orders[..i], orders[i + 1..];
    assert orders == a + [o] + b;
    assert forall k :: 0 <= k < |a| ==> a[k].id != u.orderId by {
      forall k | 0 <= k < |a| ensures a[k].id != u.orderId { assert a[k] == orders[k]; }
    }
    assert forall k :: 0 <= k < |b| ==> b[k].id != u.orderId by {
      forall k | 0 <= k < |b| ensures b[k].id != u.orderId { assert b[k] == orders[i + 1 + k]; }
    }
    ApplyStatusUpdateMisses(a, u);
    ApplyStatusUpdateMisses(b, u);
    ApplyStatusUpdateConcat(a + [o], b, u);
    ApplyStatusUpdateConcat(a, [o], u);
    assert ApplyStatusUpdate([o], u) == [o.(paymentStatus := s)];
    var o' := o.(paymentStatus := s);
    assert ApplyStatusUpdate(orders, u) == a + [o'] + b;
    FiguresConcat(a + [o], b);
    FiguresConcat(a, [o]);
    FiguresConcat(a + [o'], b);
    FiguresConcat(a, [o']);
    FiguresOfOne(o);
    FiguresOfOne(o');
  }

  // ---------------------------------------------------------------------
  // Status badges
  // ---------------------------------------------------------------------

  /** `getStatusBadgeVariant`: a lookup by name, 'default' for any other
      value. */
  function StatusBadgeVariant(status: string): BadgeVariant {
    if status == "active" then Default
    else if status == "inactive" then Secondary
    else if status == "sold_out" then Destructive
    else if status == "upcoming" then Outline
    else if status == "pending" then Outline
    else if status == "paid" then Default
    else if status == "cancelled" then Destructive
    else if status == "refunded" then Secondary
    else Default
  }

  function ProductVariant(p: ProductStatus): BadgeVariant {
    match p
    case Active => Default
    case Inactive => Secondary
    case SoldOut => Destructive
    case Upcoming => Outline
  }

  function PaymentVariant(q: PaymentStatus): BadgeVariant {
    match q
    case Pending => Outline
    case Paid => Default
    case Cancelled => Destructive
    case Refunded => Secondary
  }

  /** The lookup by name agrees with the table over the two status types,
      and a name of neither type gets 'default'. */
  lemma StatusBadgeVariantTable(p: ProductStatus, q: PaymentStatus, s: string)
    ensures StatusBadgeVariant(p.Name()) == ProductVariant(p)
    ensures StatusBadgeVariant(q.Name()) == PaymentVariant(q)
    ensures ProductStatusOf(s) == None && PaymentStatusOf(s) == None ==> StatusBadgeVariant(s) == Default
  {
  }

  // ---------------------------------------------------------------------
  // The screen
  // ---------------------------------------------------------------------

  datatype FormField = NameField | DescriptionField | PriceField | EventDateField
                     | SlugField | MaxQuantityField | ImageUrlField

  function WithField(form: ProductForm, field: FormField, v: string): ProductForm {
    match field
    case NameField => form.(name := v)
    case DescriptionField => form.(description := v)
    case PriceField => form.(price := v)
    case EventDateField => form.(eventDate := v)
    case SlugField => form.(slug := v)
    case MaxQuantityField => form.(maxQuantity := v)
    case ImageUrlField => form.(imageUrl := v)
  }

  /** A product write: insert a new product or update the one being
      edited. */
  datatype ProductWrite = Insert(data: ProductData) | Update(id: string, data: ProductData)

  class Dashboard {
    var products: seq<Product>
    var orders: seq<Order>
    var dialogOpen: bool
    var editingProduct: Option<Product>
    var productForm: ProductForm

    constructor()
      ensures products == [] && orders == [] && !dialogOpen
      ensures editingProduct == None && productForm == EmptyForm
    {
      products := [];
      orders := [];
      dialogOpen := false;
      editingProduct := None;
      productForm := EmptyForm;
    }

    /** `fetchData` succeeded with these lists. */
    method DataLoaded(ps: seq<Product>, os: seq<Order>)
      modifies this
      ensures products == ps && orders == os
      ensures dialogOpen == old(dialogOpen) && editingProduct == old(editingProduct)
      ensures productForm == old(productForm)
    {
      products := ps;
      orders := os;
    }

    /** "Novo Produto": an empty form, not editing, dialog open. */
    method NewProduct()
      modifies this
      ensures editingProduct == None && productForm == EmptyForm && dialogOpen
      ensures products == old(products) && orders == old(orders)
    {
      editingProduct := None;
      productForm := EmptyForm;
      dialogOpen := true;
    }

    /** The dialog's close control and "Cancelar". */
    method SetDialogOpen(open: bool)
      modifies this
      ensures dialogOpen == open
      ensures editingProduct == old(editingProduct) && productForm == old(productForm)
      ensures products == old(products) && orders == old(orders)
    {
      dialogOpen := open;
    }

    method EditField(field: FormField, v: string)
      requires dialogOpen
      modifies this
      ensures productForm == WithField(old(productForm), field, v)
      ensures dialogOpen && editingProduct == old(editingProduct)
      ensures products == old(products) && orders == old(orders)
    {
      productForm := WithField(productForm, field, v);
    }

    method EditStatus(s: ProductStatus)
      requires dialogOpen
      modifies this
      ensures productForm == old(productForm).(status := s)
      ensures dialogOpen && editingProduct == old(editingProduct)
      ensures products == old(products) && orders == old(orders)
    {
      productForm := productForm.(status := s);
    }

    /** `handleEditProduct`. */
    method EditProduct(p: Product, isoMinute: string -> string)
      modifies this
      ensures editingProduct == Some(p) && productForm == EditForm(p, isoMinute) && dialogOpen
      ensures products == old(products) && orders == old(orders)
    {
      editingProduct := Some(p);
      productForm := EditForm(p, isoMinute);
      dialogOpen := true;
    }

    /** `handleProductSubmit`: an invalid form is refused before any write;
        a valid one is written, as an update when a product is being edited
        and as an insert otherwise. Only when the store accepts the write
        are the dialog closed and the form reset. */
    method SubmitProduct(fold: string -> string, storeAccepts: bool) returns (write: Option<ProductWrite>)
      modifies this
      ensures var built := BuildProductData(fold, old(productForm));
              write == if built.Err? then None
                       else if old(editingProduct).Some? then Some(Update(old(editingProduct).value.id, built.value))
                       else Some(Insert(built.value))
      ensures write.Some? && storeAccepts ==> !dialogOpen && editingProduct == None && productForm == EmptyForm
      ensures !(write.Some? && storeAccepts) ==>
                dialogOpen == old(dialogOpen) && editingProduct == old(editingProduct) && productForm == old(productForm)
      ensures products == old(products) && orders == old(orders)
    {
      var built := BuildProductData(fold, productForm);
      if built.Err? {
        write := None;
      } else {
        write := if editingProduct.Some? then Some(Update(editingProduct.value.id, built.value))
                 else Some(Insert(built.value));
        if storeAccepts {
          dialogOpen := false;
          editingProduct := None;
          productForm := EmptyForm;
        }
      }
    }

    /** `updateOrderStatus`: the update sent; the lists change only when
        the data is fetched again. */
    method UpdateOrderStatus(orderId: string, status: PaymentStatus) returns (u: StatusUpdate)
      ensures forall os: seq<Order>, i :: 0 <= i < |os| ==>
                ApplyStatusUpdate(os, u)[i]
                  == (if os[i].id == orderId then os[i].(paymentStatus := status) else os[i])
    {
      u := StatusUpdate(orderId, status);
      forall os: seq<Order>, i | 0 <= i < |os|
        ensures ApplyStatusUpdate(os, u)[i]
                  == (if os[i].id == orderId then os[i].(paymentStatus := status) else os[i])
      {
        StatusUpdateEffect(os, u, i);
      }
    }
  }
}

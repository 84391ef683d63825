/** The ticket checkout: the buyer fills in contact details and a quantity,
    an order is created in the store, the PIX payment data is shown, and the
    buyer declares the payment made. */
module TicketPurchaseFlow {
  import opened Wrappers
  import opened Js
  import opened Domain
  import PaymentService

  datatype Step = Details | Payment | Success

  datatype FormData = FormData(
    customerName: string,
    customerPhone: string,
    customerEmail: string,
    quantity: int,
    notes: string)

  const InitialForm: FormData := FormData("", "", "", 1, "")

  /** The company's PIX key every order is paid to. */
  const CompanyPixKey: string := "contato@arenatransformados.com.br"

  /** `totalAmount`, in cents. */
  function TotalAmount(p: Product, f: FormData): int {
    p.priceCents * f.quantity
  }

  /** The order `handleFormSubmit` asks the store to create. */
  function OrderRequest(p: Product, f: FormData): (o: NewOrder)
    ensures o.totalAmount == o.unitPrice * o.quantity
    ensures o.productId == p.id && o.unitPrice == p.priceCents && o.quantity == f.quantity
    ensures o.customerName == f.customerName && o.customerPhone == f.customerPhone
            && o.customerEmail == f.customerEmail && o.notes == Some(f.notes)
    ensures o.paymentStatus == Pending && o.paymentMethod == "pix" && o.pixKey == Some(CompanyPixKey)
  {
    NewOrder(p.id, f.customerName, f.customerPhone, f.customerEmail, f.quantity,
             p.priceCents, TotalAmount(p, f), Pending, "pix", Some(CompanyPixKey), Some(f.notes))
  }

  /** The submit button is enabled: name, phone and email are not empty
      (white space counts as content) and no order is being created. */
  predicate SubmitEnabled(f: FormData, loading: bool) {
    f.customerName != "" && f.customerPhone != "" && f.customerEmail != "" && !loading
  }

  /** The quantity field: `parseInt(value) || 1`. */
  function QuantityFromInput(v: string): int {
    match ParseInt(v, 0)
    case None => 1
    case Some(n) => if n == 0 then 1 else n
  }

  /** The stored quantity is never 0: what does not parse, and 0, become 1;
      any other whole number typed is kept, negative ones included. */
  lemma QuantityFromInputKeeps(v: string, n: int)
    ensures QuantityFromInput(v) != 0
    ensures ParseInt(v, 0) == None ==> QuantityFromInput(v) == 1
    ensures QuantityFromInput(IntToString(n)) == (if n == 0 then 1 else n)
  {
    ParseIntOfIntToString(n);
  }

  /** The label of the step badge. */
  function StepBadge(s: Step): string {
    match s
    case Details => "Dados"
    case Payment => "Pagamento"
    case Success => "Sucesso"
  }

  /** Each step has its own label. */
  lemma StepBadgeDistinct(s: Step, t: Step)
    ensures StepBadge(s) == StepBadge(t) <==> s == t
  {
  }

  /** The data `copyPixCode` hands to the payment service. */
  function CopyData(p: Product, f: FormData): PaymentData {
    PaymentData("email", CompanyPixKey, CentsToJsString(TotalAmount(p, f)), p.name)
  }

  /** `copyPixCode`, with the random suffix given. */
  function CopyPixCode(p: Product, f: FormData, suffix: string): string
    requires PaymentService.IsRandomSuffix(suffix)
  {
    PaymentService.GeneratePIXCopyPaste(CopyData(p, f), suffix)
  }

  /** The copied code names the company key right after its head, and the
      amount handed over is the total in reais. */
  lemma CopyPixCodeCarriesTotal(p: Product, f: FormData, suffix: string)
    requires PaymentService.IsRandomSuffix(suffix)
    ensures var code := CopyPixCode(p, f, suffix);
            code[..|PaymentService.CopyPasteHead| + |CompanyPixKey|]
              == PaymentService.CopyPasteHead + CompanyPixKey
    ensures ParseFloat(CopyData(p, f).amount) == Some(TotalAmount(p, f) as real / 100.0)
  {
    var d := CopyData(p, f);
    CopyPixCodeNamesKey(d, suffix);
    ParseFloatOfCents(TotalAmount(p, f));
  }

  lemma CopyPixCodeNamesKey(d: PaymentData, suffix: string)
    requires PaymentService.IsRandomSuffix(suffix)
    requires d.recipient == CompanyPixKey
    ensures var code := PaymentService.GeneratePIXCopyPaste(d, suffix);
            code[..|PaymentService.CopyPasteHead| + |CompanyPixKey|]
              == PaymentService.CopyPasteHead + CompanyPixKey
  {
    PaymentService.CopyPasteEnds(d, suffix);
  }

  /** The amount field of the code drops the decimal point of the total, so
      R$ 12,50 and R$ 1,25 put the same digits in the code. */
  lemma CopiedAmountIsAmbiguous(big: int, small: int)
    requires big == 1250 && small == 125
    ensures ReplaceFirst(CentsToJsString(big), '.', "") == ReplaceFirst(CentsToJsString(small), '.', "")
  {
    var one, two, five := NatToString(1), DigitChar(2), DigitChar(5);
    assert NatToString(12) == one + [two];
    assert CentsToJsString(big) == (one + [two]) + "." + [five];
    assert CentsToJsString(small) == one + "." + [two, five];
    assert '.' !in one + [two];
    ReplaceFirstAt(one + [two], '.', [five], "");
    ReplaceFirstAt(one, '.', [two, five], "");
    assert (one + [two]) + "" + [five] == one + "" + [two, five];
  }

  /** A pending order for product `p`, at its price. */
  predicate IsPendingOrderOf(o: NewOrder, p: Product) {
    && o.productId == p.id
    && o.paymentStatus == Pending
    && o.unitPrice == p.priceCents
    && o.totalAmount == o.unitPrice * o.quantity
  }

  class Flow {
    const product: Product
    var step: Step
    var form: FormData
    var orderId: string
    /** `loading` of the orders hook: an order creation is under way. */
    var loading: bool
    /** The order sent to the store and not yet answered. */
    ghost var inFlight: Option<NewOrder>
    /** The order the store created. */
    ghost var placed: Option<NewOrder>

    /** The quantity is never 0; an order is under way exactly while
        loading, and only in the details step; past that step the store
        holds the order, still pending, at the product's price. */
    ghost predicate Valid()
      reads this
    {
      && form.quantity != 0
      && (loading <==> inFlight.Some?)
      && (loading ==> step == Details)
      && (inFlight.Some? ==> IsPendingOrderOf(inFlight.value, product))
      && (step != Details ==> placed.Some?)
      && (placed.Some? ==> IsPendingOrderOf(placed.value, product))
    }

    constructor(p: Product)
      ensures product == p && step == Details && form == InitialForm && orderId == ""
      ensures !loading && placed == None
      ensures Valid()
    {
      product := p;
      step := Details;
      form := InitialForm;
      orderId := "";
      loading := false;
      inFlight := None;
      placed := None;
    }

    method EditName(v: string)
      requires Valid() && step == Details
      modifies this
      ensures Valid() && form == old(form).(customerName := v)
      ensures step == old(step) && orderId == old(orderId) && loading == old(loading)
      ensures inFlight == old(inFlight) && placed == old(placed)
    {
      form := form.(customerName := v);
    }

    method EditPhone(v: string)
      requires Valid() && step == Details
      modifies this
      ensures Valid() && form == old(form).(customerPhone := v)
      ensures step == old(step) && orderId == old(orderId) && loading == old(loading)
      ensures inFlight == old(inFlight) && placed == old(placed)
    {
      form := form.(customerPhone := v);
    }

    method EditEmail(v: string)
      requires Valid() && step == Details
      modifies this
      ensures Valid() && form == old(form).(customerEmail := v)
      ensures step == old(step) && orderId == old(orderId) && loading == old(loading)
      ensures inFlight == old(inFlight) && placed == old(placed)
    {
      form := form.(customerEmail := v);
    }

    /** The quantity field; the browser's min and max are not enforced on
        typed text. */
    method EditQuantity(v: string)
      requires Valid() && step == Details
      modifies this
      ensures Valid() && form == old(form).(quantity := QuantityFromInput(v))
      ensures step == old(step) && orderId == old(orderId) && loading == old(loading)
      ensures inFlight == old(inFlight) && placed == old(placed)
    {
      QuantityFromInputKeeps(v, 0);
      form := form.(quantity := QuantityFromInput(v));
    }

    method EditNotes(v: string)
      requires Valid() && step == Details
      modifies this
      ensures Valid() && form == old(form).(notes := v)
      ensures step == old(step) && orderId == old(orderId) && loading == old(loading)
      ensures inFlight == old(inFlight) && placed == old(placed)
    {
      form := form.(notes := v);
    }

    /** "Prosseguir para Pagamento": when enabled, sends the order to the
        store and waits; a disabled button does nothing. */
    method Submit() returns (request: Option<NewOrder>)
      requires Valid() && step == Details
      modifies this
      ensures Valid()
      ensures request == if SubmitEnabled(old(form), old(loading)) then Some(OrderRequest(product, old(form))) else None
      ensures loading == (old(loading) || request.Some?)
      ensures inFlight == if request.Some? then request else old(inFlight)
      ensures step == Details && form == old(form) && orderId == old(orderId) && placed == old(placed)
    {
      if SubmitEnabled(form, loading) {
        request := Some(OrderRequest(product, form));
        loading := true;
        inFlight := request;
      } else {
        request := None;
      }
    }

    /** The store answers: with the new order's id, the flow moves to the
        payment step; with an error, only a notification is raised. */
    method OrderSettled(outcome: Result<string, string>)
      requires Valid() && loading
      modifies this
      ensures Valid() && !loading && inFlight == None && form == old(form)
      ensures outcome.Ok? ==> step == Payment && orderId == outcome.value && placed == old(inFlight)
      ensures outcome.Err? ==> step == old(step) && orderId == old(orderId) && placed == old(placed)
    {
      if outcome.Ok? {
        orderId := outcome.value;
        step := Payment;
        placed := inFlight;
      }
      loading := false;
      inFlight := None;
    }

    /** "Pagamento Efetuado": the order is left as created, pending. */
    method PaymentDone()
      requires Valid() && step == Payment
      modifies this
      ensures Valid() && step == Success
      ensures form == old(form) && orderId == old(orderId) && placed == old(placed)
    {
      step := Success;
    }
  }

  /** Once the buyer declares the payment made, the order in the store is
      still pending: nothing in the flow marks it paid. */
  lemma PaidFlowLeavesOrderPending(f: Flow)
    requires f.Valid() && f.step == Success
    ensures f.placed.Some? && f.placed.value.paymentStatus == Pending
    ensures f.placed.value.totalAmount == f.product.priceCents * f.placed.value.quantity
  {
  }
}

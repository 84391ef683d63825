/** The records the storefront keeps in its store: products on sale, the
    orders placed for them and the data of a PIX transfer. Prices and
    totals are amounts in cents; text fields are strings; `null` is None. */
module Domain {
  import opened Wrappers

  datatype ProductStatus = Active | Inactive | SoldOut | Upcoming
  {
    /** The value stored in the `status` column. */
    function Name(): string {
      match this
      case Active => "active"
      case Inactive => "inactive"
      case SoldOut => "sold_out"
      case Upcoming => "upcoming"
    }
  }

  datatype PaymentStatus = Pending | Paid | Cancelled | Refunded
  {
    /** The value stored in the `payment_status` column. */
    function Name(): string {
      match this
      case Pending => "pending"
      case Paid => "paid"
      case Cancelled => "cancelled"
      case Refunded => "refunded"
    }
  }

  /** Reads a `status` column value back. */
  function ProductStatusOf(s: string): (r: Option<ProductStatus>)
    ensures r.Some? ==> r.value.Name() == s
  {
    if s == "active" then Some(Active)
    else if s == "inactive" then Some(Inactive)
    else if s == "sold_out" then Some(SoldOut)
    else if s == "upcoming" then Some(Upcoming)
    else None
  }

  /** Reads a `payment_status` column value back. */
  function PaymentStatusOf(s: string): (r: Option<PaymentStatus>)
    ensures r.Some? ==> r.value.Name() == s
  {
    if s == "pending" then Some(Pending)
    else if s == "paid" then Some(Paid)
    else if s == "cancelled" then Some(Cancelled)
    else if s == "refunded" then Some(Refunded)
    else None
  }

  /** Every status is read back from its column value, so the names are
      distinct. */
  lemma StatusNamesRoundTrip(p: ProductStatus, q: PaymentStatus)
    ensures ProductStatusOf(p.Name()) == Some(p)
    ensures PaymentStatusOf(q.Name()) == Some(q)
  {
  }

  /** No product status shares its name with a payment status. */
  lemma StatusNamesDisjoint(p: ProductStatus, q: PaymentStatus)
    ensures p.Name() != q.Name()
    ensures ProductStatusOf(q.Name()) == None && PaymentStatusOf(p.Name()) == None
  {
  }

  /** The look of a status badge. */
  datatype BadgeVariant = Default | Secondary | Destructive | Outline

  datatype Product = Product(
    id: string,
    name: string,
    description: Option<string>,
    priceCents: int,
    eventDate: Option<string>,
    status: ProductStatus,
    slug: string,
    imageUrl: Option<string>,
    maxQuantity: Option<int>,
    soldQuantity: int,
    createdAt: string,
    updatedAt: string)

  datatype Order = Order(
    id: string,
    productId: string,
    customerName: string,
    customerPhone: string,
    customerEmail: string,
    quantity: int,
    unitPrice: int,
    totalAmount: int,
    paymentStatus: PaymentStatus,
    paymentMethod: string,
    pixKey: Option<string>,
    notes: Option<string>,
    createdAt: string,
    updatedAt: string)

  /** An order as the client sends it, before the store adds its id and
      timestamps. */
  datatype NewOrder = NewOrder(
    productId: string,
    customerName: string,
    customerPhone: string,
    customerEmail: string,
    quantity: int,
    unitPrice: int,
    totalAmount: int,
    paymentStatus: PaymentStatus,
    paymentMethod: string,
    pixKey: Option<string>,
    notes: Option<string>)

  /** What a PIX transfer carries. */
  datatype PaymentData = PaymentData(
    recipientType: string,
    recipient: string,
    amount: string,
    description: string)
}

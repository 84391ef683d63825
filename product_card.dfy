/** The product card of the storefront: status badge, date, availability,
    price and the buy button. */
module ProductCard {
  import opened Wrappers
  import opened Js
  import opened Brl
  import opened Domain
  import AdminDashboard

  const UndatedText: string := "Data a definir"

  /** `formatDate`; `render` stands for the pt-BR date formatting of a
      non-empty date. */
  function FormatDate(date: Option<string>, render: string -> string): string {
    if date == None || date.value == "" then UndatedText else render(date.value)
  }

  /** A missing or empty date reads "Data a definir"; any other date is
      rendered. */
  lemma FormatDateCases(date: Option<string>, render: string -> string)
    ensures date == None || date == Some("") ==> FormatDate(date, render) == UndatedText
    ensures date.Some? && date.value != "" ==> FormatDate(date, render) == render(date.value)
  {
  }

  /** `formatPrice` */
  function PriceText(p: Product): string {
    FormatBRL(p.priceCents)
  }

  /** The price shown is the price: different non-negative prices never
      show the same text. */
  lemma PriceTextDistinguishes(p: Product, q: Product)
    requires p.priceCents >= 0 && q.priceCents >= 0 && PriceText(p) == PriceText(q)
    ensures p.priceCents == q.priceCents
  {
    FormatBRLInjective(p.priceCents, q.priceCents);
  }

  datatype StatusBadge = StatusBadge(caption: string, variant: BadgeVariant)

  /** `getStatusBadge`: a lookup by name, the 'active' entry for any other
      value. */
  function GetStatusBadge(status: string): StatusBadge {
    if status == "inactive" then StatusBadge("Indisponível", Secondary)
    else if status == "sold_out" then StatusBadge("Esgotado", Destructive)
    else if status == "upcoming" then StatusBadge("Em Breve", Outline)
    else StatusBadge("Disponível", Default)
  }

  /** The badge of each product status, by the status itself. */
  function BadgeOf(s: ProductStatus): StatusBadge {
    match s
    case Active => StatusBadge("Disponível", Default)
    case Inactive => StatusBadge("Indisponível", Secondary)
    case SoldOut => StatusBadge("Esgotado", Destructive)
    case Upcoming => StatusBadge("Em Breve", Outline)
  }

  /** The lookup by name agrees with the table over product statuses and
      falls back to the 'active' entry for any other name. */
  lemma StatusBadgeTable(s: ProductStatus, name: string)
    ensures GetStatusBadge(s.Name()) == BadgeOf(s)
    ensures ProductStatusOf(name) == None ==> GetStatusBadge(name) == BadgeOf(Active)
  {
  }

  /** The card and the admin screen show the same badge look for a status
      name exactly when it is not 'pending', 'cancelled' or 'refunded':
      for those the card falls back to the 'active' look. */
  lemma BadgeVariantsAgree(name: string)
    ensures GetStatusBadge(name).variant == AdminDashboard.StatusBadgeVariant(name)
            <==> name != "pending" && name != "cancelled" && name != "refunded"
  {
  }

  /** The status badge is drawn over the image, so only when there is one. */
  predicate ShowsStatusBadge(p: Product) {
    p.imageUrl.Some? && p.imageUrl.value != ""
  }

  const UnlimitedText: string := "Ilimitado"

  /** `availability`: "sold/max" when the maximum is set and not 0. */
  function Availability(p: Product): string {
    if p.maxQuantity.Some? && p.maxQuantity.value != 0 then
      IntToString(p.soldQuantity) + "/" + IntToString(p.maxQuantity.value)
    else UnlimitedText
  }

  /** "Ilimitado" is shown exactly when there is no maximum or it is 0;
      otherwise the text reads back as the sold count, '/', and the
      maximum. */
  lemma AvailabilityReadsBack(p: Product)
    ensures Availability(p) == UnlimitedText <==> p.maxQuantity == None || p.maxQuantity == Some(0)
    ensures p.maxQuantity.Some? && p.maxQuantity.value != 0 ==>
              var text := Availability(p);
              var k := |IntToString(p.soldQuantity)|;
              && ParseInt(text, 0) == Some(p.soldQuantity)
              && text[k] == '/'
              && ParseInt(text[k + 1..], 0) == p.maxQuantity
  {
    if p.maxQuantity.Some? && p.maxQuantity.value != 0 {
      var sold, max := IntToString(p.soldQuantity), IntToString(p.maxQuantity.value);
      var tail := "/" + max;
      var text := sold + tail;
      assert text == Availability(p);
      assert text[0] == sold[0] && UnlimitedText[0] == 'I';
      ParseIntOfIntToStringThen(p.soldQuantity, tail);
      assert text[|sold|] == '/';
      assert text[|sold| + 1..] == max;
      ParseIntOfIntToString(p.maxQuantity.value);
    }
  }

  /** The buy button is enabled exactly for an active product, and its
      label says so. */
  predicate BuyEnabled(p: Product) {
    p.status == Active
  }

  function BuyLabel(p: Product): string {
    if p.status.Name() == "active" then "Comprar Agora" else "Indisponível"
  }

  lemma BuyButton(p: Product)
    ensures BuyEnabled(p) <==> BuyLabel(p) == "Comprar Agora"
    ensures BuyEnabled(p) <==> p.status.Name() == "active"
  {
  }
}

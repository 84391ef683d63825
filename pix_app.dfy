/** The PIX transfer wizard: choose a recipient, enter an amount and a
    description, review, confirm. The component's state is the current step
    and the payment data; each button or field handler is a method. */
module PixApp {
  import opened Js
  import opened Brl
  import PaymentService

  datatype Step = Recipient | Amount | Confirmation | Success

  datatype RecipientType = Cpf | Phone | Email | Key

  datatype PaymentData = PaymentData(
    recipientType: RecipientType,
    recipient: string,
    amount: string,
    description: string)

  const InitialData: PaymentData := PaymentData(Cpf, "", "", "")

  /** The component's own `formatCurrency`: "" when the input has no digit,
      otherwise `Number(digits) / 100` as currency text. */
  function FormatCurrency(value: string): string {
    var numeric := StripNonDigits(value);
    if numeric == [] then "" else FormatBRL(DigitValue(numeric))
  }

  /** The two copies of `formatCurrency`, with `Number` and with `parseInt`,
      agree on every input. */
  lemma FormatCurrencyAgrees(value: string)
    ensures FormatCurrency(value) == PaymentService.FormatCurrency(value)
  {
    PaymentService.FormatCurrencyOfDigits(value);
  }

  /** Formatting a formatted amount changes nothing; input without a digit
      formats to "". */
  lemma FormatCurrencyIdempotent(value: string)
    ensures FormatCurrency(FormatCurrency(value)) == FormatCurrency(value)
    ensures StripNonDigits(value) == [] <==> FormatCurrency(value) == ""
  {
    FormatCurrencyAgrees(value);
    FormatCurrencyAgrees(FormatCurrency(value));
    PaymentService.FormatCurrencyIdempotent(value);
    PaymentService.FormatCurrencyEmpty(value);
  }

  function NumericAmount(d: PaymentData): string {
    StripNonDigits(d.amount)
  }

  predicate CanProceedFromRecipient(d: PaymentData) {
    |Trim(d.recipient)| > 0
  }

  predicate CanProceedFromAmount(d: PaymentData) {
    NumericAmount(d) != [] && DigitValue(NumericAmount(d)) > 0
  }

  /** The recipient gate opens exactly when the recipient holds a character
      other than white space. */
  lemma RecipientGate(d: PaymentData)
    ensures CanProceedFromRecipient(d) <==> !IsBlank(d.recipient)
  {
    TrimEmptyIffBlank(d.recipient);
  }

  /** For an amount as the amount field stores it, the gate opens exactly
      when the amount parses to a positive number of reais; it is then the
      currency text of a positive number of cents. */
  lemma AmountGate(d: PaymentData)
    requires FormatCurrency(d.amount) == d.amount
    ensures CanProceedFromAmount(d) <==> PaymentService.ParseCurrencyToNumber(d.amount) > 0.0
    ensures CanProceedFromAmount(d) ==> d.amount == FormatBRL(DigitValue(NumericAmount(d)))
  {
    var numeric := NumericAmount(d);
    if numeric == [] {
      PaymentService.ParseCurrencyOfNoDigits(d.amount);
    } else {
      PaymentService.ParseCurrencyOfBRL(DigitValue(numeric));
    }
  }

  /** The gate has no upper limit: R$ 10.000,01 moves on to review although
      the payment service's amount check rejects it. */
  lemma AmountGateHasNoCeiling(d: PaymentData)
    requires d.amount == FormatBRL(1000001)
    ensures CanProceedFromAmount(d)
    ensures !PaymentService.ValidateAmount(d.amount)
  {
    FormatBRLDigits(1000001);
    PaymentService.ValidateAmountOfBRL(1000001, d.amount);
  }

  class Wizard {
    var step: Step
    var data: PaymentData

    /** What every reachable state satisfies: past the first step the
        recipient is not blank, at review and after it the amount is
        positive, and the amount is always text the amount field could
        have stored. */
    ghost predicate Valid()
      reads this
    {
      && (step != Recipient ==> CanProceedFromRecipient(data))
      && (step == Confirmation || step == Success ==> CanProceedFromAmount(data))
      && FormatCurrency(data.amount) == data.amount
    }

    constructor()
      ensures step == Recipient && data == InitialData
      ensures Valid()
    {
      step := Recipient;
      data := InitialData;
      new;
      FormatCurrencyIdempotent("");
    }

    /** The key type selector: the recipient is cleared. */
    method SelectRecipientType(t: RecipientType)
      requires Valid() && step == Recipient
      modifies this
      ensures Valid() && step == Recipient
      ensures data == old(data).(recipientType := t, recipient := "")
    {
      data := data.(recipientType := t, recipient := "");
    }

    method EditRecipient(v: string)
      requires Valid() && step == Recipient
      modifies this
      ensures Valid() && step == Recipient
      ensures data == old(data).(recipient := v)
    {
      data := data.(recipient := v);
    }

    /** "Continuar" on the recipient step; a disabled button does nothing. */
    method Continue() returns (moved: bool)
      requires Valid() && step == Recipient
      modifies this
      ensures Valid() && data == old(data)
      ensures moved == CanProceedFromRecipient(data)
      ensures step == (if moved then Amount else Recipient)
    {
      moved := CanProceedFromRecipient(data);
      if moved {
        step := Amount;
      }
    }

    /** `handleAmountChange`: the field keeps the input as currency text. */
    method EditAmount(v: string)
      requires Valid() && step == Amount
      modifies this
      ensures Valid() && step == Amount
      ensures data == old(data).(amount := FormatCurrency(v))
    {
      FormatCurrencyIdempotent(v);
      data := data.(amount := FormatCurrency(v));
    }

    method EditDescription(v: string)
      requires Valid() && step == Amount
      modifies this
      ensures Valid() && step == Amount
      ensures data == old(data).(description := v)
    {
      data := data.(description := v);
    }

    /** The back arrow of the amount step. */
    method BackToRecipient()
      requires Valid() && step == Amount
      modifies this
      ensures Valid() && step == Recipient && data == old(data)
    {
      step := Recipient;
    }

    /** "Revisar" on the amount step; a disabled button does nothing. */
    method Review() returns (moved: bool)
      requires Valid() && step == Amount
      modifies this
      ensures Valid() && data == old(data)
      ensures moved == CanProceedFromAmount(data)
      ensures step == (if moved then Confirmation else Amount)
    {
      moved := CanProceedFromAmount(data);
      if moved {
        step := Confirmation;
      }
    }

    /** The back arrow and the "Voltar" button of the review step. */
    method BackToAmount()
      requires Valid() && step == Confirmation
      modifies this
      ensures Valid() && step == Amount && data == old(data)
    {
      step := Amount;
    }

    /** "Confirmar PIX": the only way into the success step. */
    method Confirm()
      requires Valid() && step == Confirmation
      modifies this
      ensures Valid() && step == Success && data == old(data)
    {
      step := Success;
    }

    /** "Nova Transferência": back to the initial state. */
    method NewTransfer()
      requires Valid() && step == Success
      modifies this
      ensures Valid() && step == Recipient && data == InitialData
    {
      step := Recipient;
      data := InitialData;
      FormatCurrencyIdempotent("");
    }
  }

  /** In review and after it, the recipient is not blank and the amount is
      the currency text of a positive number of cents. */
  lemma ReviewedTransfer(w: Wizard)
    requires w.Valid() && (w.step == Confirmation || w.step == Success)
    ensures !IsBlank(w.data.recipient)
    ensures w.data.amount == FormatBRL(DigitValue(NumericAmount(w.data)))
    ensures PaymentService.ParseCurrencyToNumber(w.data.amount) > 0.0
  {
    RecipientGate(w.data);
    AmountGate(w.data);
  }
}

/**
 * The `OrderDto` request body of POST and PUT, and the data-annotation
 * validation the framework runs on it before the action executes.
 *
 * The DTO has exactly three fields. It has no Id, TotalAmount or UserName,
 * so no request body can supply them.
 */
module Dtos {
  import opened Primitives

  datatype OrderDto = OrderDto(productName: string, quantity: int32, unitPrice: real)

  /** One failed validation attribute; ModelState reports the whole set. */
  datatype Violation =
    | ProductNameRequired   // [Required] on ProductName
    | ProductNameTooLong    // [StringLength(100)] on ProductName
    | QuantityOutOfRange    // [Range(1, int.MaxValue)] on Quantity
    | UnitPriceOutOfRange   // [Range(0.01, double.MaxValue)] on UnitPrice

  const MaxProductNameLength: nat := 100
  const MinQuantity: int32 := 1
  const MinUnitPrice: real := 0.01

  /** .NET's `char.IsWhiteSpace`: the control whitespace, NEL, and the Zs, Zl and Zp categories. */
  predicate IsWhiteSpace(c: char)
  {
    var n := c as int;
    || 0x09 <= n <= 0x0D || n == 0x20 || n == 0x85 || n == 0xA0 || n == 0x1680
    || 0x2000 <= n <= 0x200A || n == 0x2028 || n == 0x2029 || n == 0x202F
    || n == 0x205F || n == 0x3000
  }

  /** `string.IsNullOrWhiteSpace` for a non-null string: [Required] rejects exactly these. */
  predicate IsBlank(s: string)
  {
    forall i | 0 <= i < |s| :: IsWhiteSpace(s[i])
  }

  /**
   * `string.Length`, which [StringLength] compares: the number of UTF-16 code
   * units, where a character outside the Basic Multilingual Plane takes two.
   */
  function Utf16Length(s: string): nat
  {
    if s == [] then 0
    else (if s[0] as int >= 0x1_0000 then 2 else 1) + Utf16Length(s[1..])
  }

  /** The UTF-16 length lies between the character count and twice it, and equals it for BMP-only text. */
  lemma {:induction false} Utf16LengthBounds(s: string)
    ensures |s| <= Utf16Length(s) <= 2 * |s|
    ensures (forall i | 0 <= i < |s| :: s[i] as int < 0x1_0000) ==> Utf16Length(s) == |s|
  {
    if s != [] {
      Utf16LengthBounds(s[1..]);
      if forall i | 0 <= i < |s| :: s[i] as int < 0x1_0000 {
        assert forall i | 0 <= i < |s[1..]| :: s[1..][i] == s[i + 1];
      }
    }
  }

  /** Every validation attribute the DTO violates; ModelState holds all of them, not only the first. */
  function Violations(dto: OrderDto): (errors: set<Violation>)
    ensures ProductNameRequired in errors <==> IsBlank(dto.productName)
    ensures ProductNameTooLong in errors <==> Utf16Length(dto.productName) > MaxProductNameLength
    ensures QuantityOutOfRange in errors <==> dto.quantity < MinQuantity
    ensures UnitPriceOutOfRange in errors <==> dto.unitPrice < MinUnitPrice
  {
    (if IsBlank(dto.productName) then {ProductNameRequired} else {})
    + (if Utf16Length(dto.productName) > MaxProductNameLength then {ProductNameTooLong} else {})
    + (if dto.quantity < MinQuantity then {QuantityOutOfRange} else {})
    + (if dto.unitPrice < MinUnitPrice then {UnitPriceOutOfRange} else {})
  }

  /** `ModelState.IsValid`. */
  predicate IsValid(dto: OrderDto)
  {
    Violations(dto) == {}
  }

  /**
   * A DTO is accepted exactly when its name is non-blank and at most 100
   * UTF-16 units, its quantity is at least 1 (every value up to
   * `int.MaxValue` is accepted) and its unit price is at least 0.01.
   */
  lemma ValidIff(dto: OrderDto)
    ensures IsValid(dto) <==>
      && !IsBlank(dto.productName)
      && Utf16Length(dto.productName) <= MaxProductNameLength
      && MinQuantity <= dto.quantity <= INT32_MAX
      && dto.unitPrice >= MinUnitPrice
  {
  }
}

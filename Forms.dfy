/**
 * The two form controllers: the page's contact form and the order form in
 * the order modal. They share the phone mask and the validator and differ
 * only in what a successful submission does with the modals.
 *
 * A submission validates every field (each field's error state is
 * refreshed, none is skipped) and stops if any field fails. Otherwise the
 * submit button is disabled and shows a busy caption while the request is
 * awaited; whatever its outcome, the button is then re-enabled and its
 * original caption put back. The request itself is outside the model: its
 * outcome is a parameter.
 */
module Forms {
  import opened Wrappers
  import opened Text
  import opened PhoneMask
  import opened Validation
  import opened Modals

  /**
   * A form control as the validator sees it: its `required` attribute,
   * its `type`, whether the phone mask is bound to it, and the value
   * `form.reset()` restores.
   */
  datatype Field = Field(required: bool, fieldType: string, masked: bool, defaultValue: string)

  /** The page's contact form, or the order form inside the order modal. */
  datatype FormKind = ContactForm | OrderForm

  /** The busy caption of the submit button (a fixed message text). */
  const BusyLabel: string := "Отправка..."

  /** The verdict of `validateField` for a field holding `value`. */
  function Check(f: Field, value: string): Option<FieldError> {
    Validate(f.required, f.fieldType, value)
  }

  /** The value the field holds after an `input` event that typed `raw`. */
  function Entered(f: Field, raw: string): string {
    if f.masked then Mask(raw) else raw
  }

  function Defaults(fields: seq<Field>): (vs: seq<string>)
    ensures |vs| == |fields|
    ensures forall i :: 0 <= i < |fields| ==> vs[i] == fields[i].defaultValue
  {
    seq(|fields|, i requires 0 <= i < |fields| => fields[i].defaultValue)
  }

  /** The modals active after a successful submission of a form of kind `kind`. */
  function ActiveAfterSuccess(kind: FormKind, active: set<string>, modals: set<string>): set<string> {
    var closed := if ClosesOrder(kind, modals) then {OrderModal} else {};
    var shown := if SuccessModal in modals then {SuccessModal} else {};
    active - closed + shown
  }

  /** Whether a successful submission of a form of kind `kind` closes the order modal first. */
  predicate ClosesOrder(kind: FormKind, modals: set<string>) {
    kind == OrderForm && OrderModal in modals
  }

  /**
   * The window offset just before the success modal is shown: closing the
   * order modal first scrolls to the offset saved in `top`.
   */
  function OffsetBeforeSuccess(kind: FormKind, modals: set<string>, top: string, scrollY: nat): nat {
    if ClosesOrder(kind, modals) then RestoredScroll(top) else scrollY
  }

  /**
   * The order form's service selector (`#modal-service`): the index of its
   * control among the form's fields, and its options.
   */
  datatype ServiceSelect = ServiceSelect(field: nat, options: seq<SelectOption>)

  /** The form's values after its selector, if any, is pre-filled with `service`. */
  function PreFilled(values: seq<string>, select: Option<ServiceSelect>, service: string): seq<string>
    requires select.Some? ==> select.value.field < |values|
  {
    if select.None? then values
    else match FirstIncluding(select.value.options, service)
      case None => values
      case Some(k) => values[select.value.field := select.value.options[k].value]
  }

  class Form {
    const fields: seq<Field>
    const kind: FormKind
    /** The document whose modals and scroll lock a successful submission drives. */
    const page: Page
    /** The service selector among the fields; only the order form has one. */
    const select: Option<ServiceSelect>
    var values: seq<string>
    /** Per field: the error its form group shows, if any. */
    var errors: seq<Option<FieldError>>
    /** The submit button's `disabled` flag and text. */
    var disabled: bool
    var caption: string

    ghost predicate Valid()
      reads this, page
    {
      |values| == |fields| && |errors| == |fields| && page.Valid() &&
      (select.Some? ==> kind == OrderForm && select.value.field < |fields|)
    }

    /** Every field passes validation with its current value. */
    predicate AllPass()
      reads this
      requires |values| == |fields|
    {
      forall j :: 0 <= j < |fields| ==> Check(fields[j], values[j]) == None
    }

    constructor (fields: seq<Field>, kind: FormKind, select: Option<ServiceSelect>, page: Page, caption: string)
      requires page.Valid()
      requires select.Some? ==> kind == OrderForm && select.value.field < |fields|
      ensures Valid()
      ensures this.fields == fields && this.kind == kind && this.select == select && this.page == page
      ensures values == Defaults(fields) && errors == seq(|fields|, _ => None)
      ensures !disabled && this.caption == caption
    {
      this.fields := fields;
      this.kind := kind;
      this.select := select;
      this.page := page;
      values := Defaults(fields);
      errors := seq(|fields|, _ => None);
      disabled := false;
      this.caption := caption;
    }

    /**
     * `validateField`: clears the field's error, then records the first rule
     * it breaks. It answers whether the field passed, and a passing field
     * is left showing no error.
     */
    method ValidateField(i: nat) returns (ok: bool)
      requires Valid() && i < |fields|
      modifies this`errors
      ensures Valid()
      ensures errors == old(errors)[i := Check(fields[i], values[i])]
      ensures ok <==> Check(fields[i], values[i]) == None
      ensures ok ==> errors[i] == None
    {
      errors := errors[i := None];
      var verdict := Check(fields[i], values[i]);
      if verdict.Some? {
        errors := errors[i := verdict];
      }
      ok := verdict.None?;
    }

    /** Leaving a field validates it. */
    method Blur(i: nat)
      requires Valid() && i < |fields|
      modifies this`errors
      ensures Valid()
      ensures errors == old(errors)[i := Check(fields[i], values[i])]
    {
      var _ := ValidateField(i);
    }

    /**
     * Typing `raw` into a field: the phone mask (when bound) rewrites the
     * value first; the field is then re-validated only if it already shows
     * an error.
     */
    method Input(i: nat, raw: string)
      requires Valid() && i < |fields|
      modifies this`values, this`errors
      ensures Valid()
      ensures values == old(values)[i := Entered(fields[i], raw)]
      ensures errors == if old(errors)[i].Some?
        then old(errors)[i := Check(fields[i], Entered(fields[i], raw))]
        else old(errors)
    {
      values := values[i := Entered(fields[i], raw)];
      if errors[i].Some? {
        var _ := ValidateField(i);
      }
    }

    /** Validates every field in order, without stopping at the first failure. */
    method ValidateAll() returns (ok: bool)
      requires Valid()
      modifies this`errors
      ensures Valid()
      ensures forall j :: 0 <= j < |fields| ==> errors[j] == Check(fields[j], values[j])
      ensures ok <==> AllPass()
    {
      ok := true;
      var i := 0;
      while i < |fields|
        invariant 0 <= i <= |fields| && Valid()
        invariant forall j :: 0 <= j < i ==> errors[j] == Check(fields[j], values[j])
        invariant ok <==> forall j :: 0 <= j < i ==> Check(fields[j], values[j]) == None
      {
        var fieldOk := ValidateField(i);
        if !fieldOk {
          ok := false;
        }
        i := i + 1;
      }
    }

    /**
     * The submit handler up to the awaited request: validate everything and
     * either stop (nothing is sent, the button is untouched) or disable the
     * button behind the busy caption, keeping the caption it had.
     */
    method BeginSubmit() returns (sent: bool, originalText: string)
      requires Valid()
      modifies this`errors, this`disabled, this`caption
      ensures Valid()
      ensures forall j :: 0 <= j < |fields| ==> errors[j] == Check(fields[j], values[j])
      ensures sent <==> AllPass()
      ensures sent ==> disabled && caption == BusyLabel && originalText == old(caption)
      ensures !sent ==> disabled == old(disabled) && caption == old(caption)
    {
      originalText := caption;
      sent := ValidateAll();
      if sent {
        disabled := true;
        caption := BusyLabel;
      }
    }

    /**
     * The submit handler after the request: on success the form is reset and
     * the success modal shown (the order form first closes the order modal);
     * on failure an alert is raised. In both cases the button is re-enabled
     * with `originalText`.
     */
    method FinishSubmit(succeeded: bool, originalText: string) returns (alerted: bool)
      requires Valid()
      modifies this`values, this`disabled, this`caption, page
      ensures Valid()
      ensures !disabled && caption == originalText
      ensures alerted == !succeeded
      ensures page.menuOpen == old(page.menuOpen)
      ensures succeeded ==> values == Defaults(fields)
      ensures succeeded ==> page.active == ActiveAfterSuccess(kind, old(page.active), page.modals)
      ensures succeeded && SuccessModal in page.modals ==>
        page.LockedAt(OffsetBeforeSuccess(kind, page.modals, old(page.top), old(page.scrollY)))
      ensures succeeded && SuccessModal !in page.modals && ClosesOrder(kind, page.modals) ==>
        page.Unlocked() && page.scrollY == RestoredScroll(old(page.top))
      ensures succeeded && SuccessModal !in page.modals && !ClosesOrder(kind, page.modals) ==> unchanged(page)
      ensures !succeeded ==> values == old(values) && unchanged(page)
    {
      alerted := false;
      if succeeded {
        if kind == OrderForm {
          page.CloseModal(OrderModal);
        }
        page.ShowModal(SuccessModal);
        values := Defaults(fields);
      } else {
        alerted := true;
      }
      disabled := false;
      caption := originalText;
    }

    /**
     * A whole submission with the request's outcome given. When it goes
     * ahead, the button ends enabled with the caption it had before, on
     * success and on failure alike; when a field fails, nothing is sent
     * and nothing but the error display changes.
     */
    method Submit(succeeded: bool) returns (sent: bool)
      requires Valid()
      modifies this`values, this`errors, this`disabled, this`caption, page
      ensures Valid()
      ensures forall j :: 0 <= j < |fields| ==> errors[j] == Check(fields[j], old(values)[j])
      ensures sent <==> old(AllPass())
      ensures !sent ==> (disabled == old(disabled) && caption == old(caption) && values == old(values) &&
        unchanged(page))
      ensures sent ==> !disabled && caption == old(caption)
      ensures page.menuOpen == old(page.menuOpen)
      ensures sent && succeeded ==> (values == Defaults(fields) &&
        page.active == ActiveAfterSuccess(kind, old(page.active), page.modals))
      ensures sent && succeeded && SuccessModal in page.modals ==>
        page.LockedAt(OffsetBeforeSuccess(kind, page.modals, old(page.top), old(page.scrollY)))
      ensures sent && succeeded && SuccessModal !in page.modals && ClosesOrder(kind, page.modals) ==>
        page.Unlocked() && page.scrollY == RestoredScroll(old(page.top))
      ensures sent && succeeded && SuccessModal !in page.modals && !ClosesOrder(kind, page.modals) ==>
        unchanged(page)
      ensures sent && !succeeded ==> values == old(values) && unchanged(page)
    {
      var originalText;
      sent, originalText := BeginSubmit();
      if sent {
        var _ := FinishSubmit(succeeded, originalText);
      }
    }

    /**
     * Pre-selects the ordered service: the selector's field takes the value
     * of the first option whose text contains `service`. With no such option,
     * or no selector, every value stays as it was.
     */
    method PreFill(service: string)
      requires Valid()
      modifies this`values
      ensures Valid()
      ensures values == PreFilled(old(values), select, service)
      ensures select.Some? && FirstIncluding(select.value.options, service).Some? ==>
        var k := FirstIncluding(select.value.options, service).value;
        values == old(values)[select.value.field := select.value.options[k].value] &&
        Includes(select.value.options[k].text, service)
      ensures select.None? || FirstIncluding(select.value.options, service).None? ==> values == old(values)
    {
      if select.Some? {
        match FirstIncluding(select.value.options, service)
        case Some(k) =>
          values := values[select.value.field := select.value.options[k].value];
        case None =>
      }
    }

    /**
     * A click on an element with `data-modal`: fill the service-details
     * panel or pre-select the ordered service in this form when the trigger
     * asks for it, then show the modal. An absent `data-*` attribute is the
     * empty string.
     */
    method OpenFromTrigger(panel: ServicePanel, modalId: string, service: string, serviceType: string)
      requires Valid()
      modifies page, panel, this`values
      ensures Valid() && page.menuOpen == old(page.menuOpen)
      ensures modalId in page.modals ==>
        page.active == old(page.active) + {modalId} && page.LockedAt(old(page.scrollY))
      ensures modalId !in page.modals ==> unchanged(page)
      ensures panel.shown ==
        if modalId == ServiceDetailsModal && serviceType != "" && panel.present && serviceType in panel.catalog
        then Some(panel.catalog[serviceType]) else old(panel.shown)
      ensures values ==
        if service != "" && modalId == OrderModal then PreFilled(old(values), select, service) else old(values)
    {
      if modalId == ServiceDetailsModal && serviceType != "" {
        panel.ShowDetails(serviceType);
      }
      if service != "" && modalId == OrderModal {
        PreFill(service);
      }
      page.ShowModal(modalId);
    }
  }
}

/** The contest-entry form's state: six text fields, all empty when the form
    appears, changed one field per input event. The PIN field is passed
    through the PIN formatter before it is stored, so the stored PIN is
    always in canonical dashed form. */
module Form {
  import opened PinFormat

  /** The names of the form's six inputs. */
  datatype Field = FirstName | LastName | Phone | Email | Guess | SpidrPin

  /** The values the form currently holds, one string per input. */
  datatype FormData = FormData(
    firstName: string,
    lastName: string,
    phone: string,
    email: string,
    guess: string,
    spidrPin: string)
  {
    /** The value held for one field. */
    function Get(f: Field): string {
      match f
      case FirstName => firstName
      case LastName => lastName
      case Phone => phone
      case Email => email
      case Guess => guess
      case SpidrPin => spidrPin
    }

    /** The record with one field replaced and the other five kept. */
    function With(f: Field, v: string): (r: FormData)
      ensures r.Get(f) == v
      ensures forall g :: g != f ==> r.Get(g) == Get(g)
    {
      match f
      case FirstName => this.(firstName := v)
      case LastName => this.(lastName := v)
      case Phone => this.(phone := v)
      case Email => this.(email := v)
      case Guess => this.(guess := v)
      case SpidrPin => this.(spidrPin := v)
    }
  }

  /** The form's state when it first appears: every field empty. */
  function Initial(): (r: FormData)
    ensures forall f :: r.Get(f) == ""
  {
    FormData("", "", "", "", "", "")
  }

  /** One input event: the name of the input that changed and its new text. */
  datatype ChangeEvent = ChangeEvent(name: Field, value: string)

  /** The state after one input event: the named field takes the typed
      value, formatted when it is the PIN; the other five fields stay as
      they were; a canonical stored PIN stays canonical. */
  function Changed(fd: FormData, name: Field, value: string): (r: FormData)
    ensures r.Get(name) == if name == SpidrPin then FormatSpidrPin(value) else value
    ensures forall g :: g != name ==> r.Get(g) == fd.Get(g)
    ensures name == SpidrPin ==> IsCanonicalPin(r.spidrPin)
    ensures IsCanonicalPin(fd.spidrPin) ==> IsCanonicalPin(r.spidrPin)
  {
    FormatIdempotent(value);
    fd.With(name, if name == SpidrPin then FormatSpidrPin(value) else value)
  }

  /** The state after a sequence of input events, applied in order. */
  function Replay(fd: FormData, events: seq<ChangeEvent>): FormData
    decreases |events|
  {
    if events == [] then fd
    else Replay(Changed(fd, events[0].name, events[0].value), events[1..])
  }

  /** Whatever events arrive, a canonical stored PIN stays canonical. */
  lemma {:induction false} ReplayKeepsPinCanonical(fd: FormData, events: seq<ChangeEvent>)
    requires IsCanonicalPin(fd.spidrPin)
    ensures IsCanonicalPin(Replay(fd, events).spidrPin)
    decreases |events|
  {
    if events != [] {
      ReplayKeepsPinCanonical(Changed(fd, events[0].name, events[0].value), events[1..]);
    }
  }

  /** From the empty form, after any sequence of input events, the stored
      PIN is a fixed point of the formatter, and so digits and dashes only,
      at most nineteen characters, never ending in a dash. */
  lemma PinAlwaysCanonical(events: seq<ChangeEvent>)
    ensures IsCanonicalPin(Replay(Initial(), events).spidrPin)
    ensures DigitsAndDashes(Replay(Initial(), events).spidrPin)
    ensures |Replay(Initial(), events).spidrPin| <= MaxFormattedLength
    ensures var p := Replay(Initial(), events).spidrPin; p != "" ==> p[|p| - 1] != '-'
  {
    ReplayKeepsPinCanonical(Initial(), events);
    CanonicalPinShape(Replay(Initial(), events).spidrPin);
  }

  /** A field that no event names keeps its value. */
  lemma {:induction false} ReplayLeavesOtherFields(fd: FormData, events: seq<ChangeEvent>, f: Field)
    requires forall i :: 0 <= i < |events| ==> events[i].name != f
    ensures Replay(fd, events).Get(f) == fd.Get(f)
    decreases |events|
  {
    if events != [] {
      ReplayLeavesOtherFields(Changed(fd, events[0].name, events[0].value), events[1..], f);
    }
  }

  /** The form component's held state. */
  class FormState {
    var formData: FormData

    /** The stored PIN is always in canonical dashed form. */
    ghost predicate Valid()
      reads this
    {
      IsCanonicalPin(formData.spidrPin)
    }

    /** The form as it first appears: all six fields empty. */
    constructor ()
      ensures Valid()
      ensures formData == Initial()
    {
      formData := Initial();
    }

    /** One input event: the named field is replaced, by the formatted
        value for the PIN and by the raw value otherwise; nothing else
        changes. */
    method HandleChange(name: Field, value: string)
      requires Valid()
      modifies this
      ensures Valid()
      ensures formData == Changed(old(formData), name, value)
      ensures formData.Get(name) == if name == SpidrPin then FormatSpidrPin(value) else value
      ensures forall g :: g != name ==> formData.Get(g) == old(formData).Get(g)
    {
      var stored := if name == SpidrPin then FormatSpidrPin(value) else value;
      formData := formData.With(name, stored);
      FormatIdempotent(value);
    }
  }
}

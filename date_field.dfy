/** The composite date control: three text sub-fields that are merged into
    one complete record on every keystroke. */
module DateField {

  /** The day, month and year as the user typed them; never validated here. */
  datatype DateValue = DateValue(day: string, month: string, year: string)

  /** The names `handleChange` is called with. */
  datatype DatePart = Day | Month | Year

  /** The default value of the control: every sub-field empty. */
  const EmptyDate := DateValue("", "", "")

  /** The text of one sub-field. */
  function Part(v: DateValue, p: DatePart): string
  {
    match p
    case Day => v.day
    case Month => v.month
    case Year => v.year
  }

  /** `handleChange(field, e)`: a copy of the current record with the named
      sub-field set to the new text. */
  function HandleChange(v: DateValue, p: DatePart, text: string): (r: DateValue)
    ensures Part(r, p) == text
    ensures forall q :: q != p ==> Part(r, q) == Part(v, q)
  {
    match p
    case Day => v.(day := text)
    case Month => v.(month := text)
    case Year => v.(year := text)
  }

  /** Two records with the same three sub-fields are the same record. */
  lemma PartsDetermineValue(v: DateValue, w: DateValue)
    requires forall p :: Part(v, p) == Part(w, p)
    ensures v == w
  {
    assert Part(v, Day) == Part(w, Day);
    assert Part(v, Month) == Part(w, Month);
    assert Part(v, Year) == Part(w, Year);
  }

  /** Writing a sub-field twice keeps only the second text. */
  lemma HandleChangeOverwrites(v: DateValue, p: DatePart, first: string, second: string)
    ensures HandleChange(HandleChange(v, p, first), p, second) == HandleChange(v, p, second)
  {
    var a := HandleChange(HandleChange(v, p, first), p, second);
    var b := HandleChange(v, p, second);
    forall q ensures Part(a, q) == Part(b, q) {
    }
    PartsDetermineValue(a, b);
  }

  /** Edits of two different sub-fields do not interfere. */
  lemma HandleChangeCommutes(v: DateValue, p: DatePart, q: DatePart, x: string, y: string)
    requires p != q
    ensures HandleChange(HandleChange(v, p, x), q, y) == HandleChange(HandleChange(v, q, y), p, x)
  {
    var a := HandleChange(HandleChange(v, p, x), q, y);
    var b := HandleChange(HandleChange(v, q, y), p, x);
    forall r ensures Part(a, r) == Part(b, r) {
    }
    PartsDetermineValue(a, b);
  }

  /** Reporting a sub-field's current text again leaves the record as it was. */
  lemma HandleChangeSameText(v: DateValue, p: DatePart)
    ensures HandleChange(v, p, Part(v, p)) == v
  {
    var a := HandleChange(v, p, Part(v, p));
    forall q ensures Part(a, q) == Part(v, q) {
    }
    PartsDetermineValue(a, v);
  }
}

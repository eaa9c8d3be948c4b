/** The calendar mapping used to derive `MonthOrder` from the `Month` column. */
module Months {
  import opened Collections
  import opened Cells

  /** The only labels the loader recognises: full English month names,
      capitalised, in calendar order. */
  const MonthNames: seq<string> := [
    "January", "February", "March", "April", "May", "June",
    "July", "August", "September", "October", "November", "December"
  ]

  /** The calendar number (1 to 12) of a month label; `None` for anything
      that is not one of the twelve names, numbers included. */
  function MonthNumber(c: Cell): (r: Option<nat>)
    ensures r.Some? ==> c.Text? && 1 <= r.value <= 12 && MonthNames[r.value - 1] == c.s
  {
    match c
    case Num(_) => None
    case Text(s) =>
      match s
      case "January" => Some(1)
      case "February" => Some(2)
      case "March" => Some(3)
      case "April" => Some(4)
      case "May" => Some(5)
      case "June" => Some(6)
      case "July" => Some(7)
      case "August" => Some(8)
      case "September" => Some(9)
      case "October" => Some(10)
      case "November" => Some(11)
      case "December" => Some(12)
      case _ => None
  }

  /** Every one of the twelve names is recognised, with its position in the
      calendar, so the numbering is strictly increasing from January to
      December; together with the contract of `MonthNumber` this makes the
      twelve names exactly the recognised labels. */
  lemma MonthNumberCalendar()
    ensures forall i :: 0 <= i < 12 ==> MonthNumber(Text(MonthNames[i])) == Some(i + 1)
    ensures forall i, j :: 0 <= i < j < 12 ==>
      MonthNumber(Text(MonthNames[i])).value < MonthNumber(Text(MonthNames[j])).value
  {
  }

  /** A label is recognised exactly when it is one of the twelve names. */
  lemma MonthNumberRecognises(c: Cell)
    ensures MonthNumber(c).Some? <==> c.Text? && c.s in MonthNames
  {
    MonthNumberCalendar();
    if c.Text? && c.s in MonthNames {
      var i :| 0 <= i < 12 && MonthNames[i] == c.s;
      assert c == Text(MonthNames[i]);
    }
  }
}

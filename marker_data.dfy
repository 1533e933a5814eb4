/**
 * The pure part of a hotspot marker: the static label-to-description table and
 * the extraction of the resistance and corrosion series from the rows served
 * by the tabular data endpoint.
 *
 * A row is one CSV record parsed with header-row semantics, so every value is
 * text; a column the record lacks reads as `Undefined`, as a missing property
 * does in the source.
 */
module MarkerData {
  import opened Wrappers

  /** One cell of a displayed series: a piece of text or JavaScript's `undefined`. */
  datatype Field = Undefined | Str(value: string)

  type Row = map<string, string>

  /** What settling the fetch of the data endpoint yields. */
  datatype FetchOutcome =
    | Ok(rows: seq<Row>)   // a 2xx response whose body is the row array
    | Failed               // a non-ok status, a transport failure or an unreadable body

  /** The two series a marker shows, in the order of their columns. */
  datatype Readings = Readings(resistance: seq<Field>, corrosion: seq<Field>)

  const NotAvailable: string := "N/A"
  const ErrorText: string := "Error"

  const Descriptions: map<string, string> := map[
    "Bow Thruster" := "Corrosion due to constant exposure and electrochemical reactions with metals.",
    "Waterline" := "Susceptible to corrosion from constant wet-dry cycles and marine growth.",
    "Engine" := "Exposed to corrosive gases and high temperatures, accelerating metal deterioration.",
    "Propeller" := "Vulnerable to galvanic corrosion from differing metals in seawater.",
    "Keel" := "Corrosion occurs due to prolonged seawater exposure and mechanical stress."
  ]

  /** The labels of the five hull locations that have a description. */
  const KnownLabels: set<string> := Descriptions.Keys

  /** `descriptions[text] || ''`: the table entry, or the empty text for any other label. */
  function Description(text: string): (d: string)
    ensures d != "" <==> text in KnownLabels
    ensures text in KnownLabels ==> d == Descriptions[text]
  {
    if text in Descriptions && Descriptions[text] != "" then Descriptions[text] else ""
  }

  /** Reading a property of a row: the text, or `undefined` when the column is absent. */
  function Get(row: Row, column: string): (f: Field)
    ensures f.Str? <==> column in row
    ensures f.Str? ==> f.value == row[column]
  {
    if column in row then Str(row[column]) else Undefined
  }

  /**
   * `item.text === text`: strict equality, so a row without a `text` column
   * (which reads `undefined`) never matches.
   */
  function Matches(row: Row, text: string): (m: bool)
    ensures m <==> Get(row, "text") == Str(text)
  {
    "text" in row && row["text"] == text
  }

  /** `data.find(...)` as an index: the first row that matches the label, if any. */
  function FirstMatch(rows: seq<Row>, text: string): (r: Option<nat>)
    ensures r.Some? ==> r.value < |rows| && Matches(rows[r.value], text)
    ensures r.Some? ==> forall j :: 0 <= j < r.value ==> !Matches(rows[j], text)
    ensures r.None? <==> forall j :: 0 <= j < |rows| ==> !Matches(rows[j], text)
  {
    if rows == [] then None
    else if Matches(rows[0], text) then Some(0)
    else match FirstMatch(rows[1..], text)
      case None => None
      case Some(i) => Some(i + 1)
  }

  /** The decimal spelling of a column number from 1 to 10. */
  function Numeral(n: nat): (s: string)
    requires 1 <= n <= 10
    ensures 1 <= |s| <= 2
    ensures forall k :: 0 <= k < |s| ==> '0' <= s[k] <= '9'
  {
    if n == 10 then "10" else [('0' as int + n) as char]
  }

  const ResistanceColumns: seq<string> := [
    "resistance1", "resistance2", "resistance3", "resistance4", "resistance5",
    "resistance6", "resistance7", "resistance8", "resistance9", "resistance10"
  ]

  const CorrosionColumns: seq<string> := [
    "corrosion1", "corrosion2", "corrosion3", "corrosion4", "corrosion5",
    "corrosion6", "corrosion7", "corrosion8", "corrosion9", "corrosion10"
  ]

  /** The column lists are the ten numbered columns of each kind, in ascending order. */
  lemma {:induction false} ColumnsAreNumbered()
    ensures |ResistanceColumns| == 10 && |CorrosionColumns| == 10
    ensures forall k :: 0 <= k < 10 ==> ResistanceColumns[k] == "resistance" + Numeral(k + 1)
    ensures forall k :: 0 <= k < 10 ==> CorrosionColumns[k] == "corrosion" + Numeral(k + 1)
  {
    forall k | 0 <= k < 10
      ensures ResistanceColumns[k] == "resistance" + Numeral(k + 1)
      ensures CorrosionColumns[k] == "corrosion" + Numeral(k + 1)
    {
      if k == 9 {
        assert Numeral(10) == "10";
      } else {
        assert Numeral(k + 1) == [('0' as int + k + 1) as char];
      }
    }
  }

  /** The series read positionally from the given columns of a row. */
  function Series(row: Row, columns: seq<string>): (s: seq<Field>)
  {
    seq(|columns|, i requires 0 <= i < |columns| => Get(row, columns[i]))
  }

  /**
   * The readings a settled fetch yields for the marker labelled `text`. Both
   * series always have the same length, and it is 10 or 1.
   */
  function ReadingsFor(outcome: FetchOutcome, text: string): (r: Readings)
    ensures |r.resistance| == |r.corrosion|
    ensures |r.resistance| in {1, 10}
  {
    match outcome
    case Failed => Readings([Str(ErrorText)], [Str(ErrorText)])
    case Ok(rows) =>
      match FirstMatch(rows, text)
      case None => Readings([Str(NotAvailable)], [Str(NotAvailable)])
      case Some(i) => Readings(Series(rows[i], ResistanceColumns), Series(rows[i], CorrosionColumns))
  }

  /** A failed fetch shows the sentinel "Error" in both series. */
  lemma ReadingsOnFailure(text: string)
    ensures ReadingsFor(Failed, text) == Readings([Str("Error")], [Str("Error")])
  {
  }

  /** A fetch whose rows match no label shows the sentinel "N/A" in both series. */
  lemma ReadingsWithoutMatch(rows: seq<Row>, text: string)
    requires forall j :: 0 <= j < |rows| ==> !Matches(rows[j], text)
    ensures ReadingsFor(Ok(rows), text) == Readings([Str("N/A")], [Str("N/A")])
  {
  }

  /**
   * When row `i` is the first row labelled like the marker, the series are the
   * columns resistance1..resistance10 and corrosion1..corrosion10 of that row,
   * in column order.
   */
  lemma {:induction false} ReadingsFromFirstMatch(rows: seq<Row>, text: string, i: nat)
    requires i < |rows| && Matches(rows[i], text)
    requires forall j :: 0 <= j < i ==> !Matches(rows[j], text)
    ensures |ReadingsFor(Ok(rows), text).resistance| == 10
    ensures |ReadingsFor(Ok(rows), text).corrosion| == 10
    ensures forall k :: 0 <= k < 10 ==>
      ReadingsFor(Ok(rows), text).resistance[k] == Get(rows[i], "resistance" + Numeral(k + 1))
    ensures forall k :: 0 <= k < 10 ==>
      ReadingsFor(Ok(rows), text).corrosion[k] == Get(rows[i], "corrosion" + Numeral(k + 1))
  {
    assert FirstMatch(rows, text) == Some(i);
    ColumnsAreNumbered();
  }

  /** Rows that do not carry the marker's label never influence its readings. */
  lemma {:induction false} ReadingsIgnoreOtherRows(rows: seq<Row>, other: Row, text: string)
    requires !Matches(other, text)
    ensures ReadingsFor(Ok([other] + rows), text) == ReadingsFor(Ok(rows), text)
  {
    var all := [other] + rows;
    assert all[1..] == rows;
    match FirstMatch(rows, text)
    case None =>
      assert forall j :: 0 <= j < |all| ==> !Matches(all[j], text) by {
        forall j | 0 <= j < |all| ensures !Matches(all[j], text) {
          if j > 0 { assert all[j] == rows[j - 1]; }
        }
      }
    case Some(i) =>
      assert FirstMatch(all, text) == Some(i + 1);
      assert all[i + 1] == rows[i];
  }
}

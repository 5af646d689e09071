/**
 * The structured shipment record that the backend extracts and the browser
 * edits, and the document summary that the backend lists.
 */
module Records {
  import opened Wrappers

  /** The four columns of a line item. */
  datatype Field = Description | Quantity | Weight | Value

  /** One row of the `items` table; every cell is free-form text. */
  datatype LineItem = LineItem(description: string, quantity: string, weight: string, value: string)
  {
    /** The cell in column `f`. */
    function Get(f: Field): string {
      match f
      case Description => description
      case Quantity => quantity
      case Weight => weight
      case Value => value
    }

    /** JavaScript `{ ...item, [f]: v }`: column `f` set to `v`, the other columns kept. */
    function With(f: Field, v: string): (r: LineItem)
      ensures r.Get(f) == v
      ensures forall g: Field :: g != f ==> r.Get(g) == Get(g)
    {
      match f
      case Description => this.(description := v)
      case Quantity => this.(quantity := v)
      case Weight => this.(weight := v)
      case Value => this.(value := v)
    }
  }

  /** The row that "+ Add Item" appends: four empty strings. */
  const BlankItem := LineItem("", "", "", "")

  /**
   * An extracted or edited shipment record: its scalar members by name
   * (`shipment_id`, `sender_name`, ..., or `error` for a failed extraction)
   * and its `items` member, `None` when that member is missing or is not an array.
   */
  datatype Record = Record(fields: map<string, string>, items: Option<seq<LineItem>>)

  /** One element of the backend's document listing. */
  datatype DocumentInfo = DocumentInfo(
    id: int,
    filename: string,
    uploadTime: string,
    extractedData: Record,
    editedData: Option<Record>)
}

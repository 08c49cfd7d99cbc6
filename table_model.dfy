/** The table model behind the list of saved prompts: the rows it shows and the row lookup the handlers use. */
module TableModel {
  import opened Wrappers
  import opened Lists
  import opened Prompts

  class PromptTableModel {
    /** The records shown, one per row. */
    var rows: seq<Prompt>

    /** A model over `data`, or over no rows when there is none. */
    constructor (data: Option<seq<Prompt>>)
      ensures rows == data.GetOr([])
    {
      rows := data.GetOr([]);
    }

    /** Replaces the rows, as the search box and every reload do. */
    method UpdateData(newData: seq<Prompt>)
      modifies this
      ensures rows == newData
    {
      rows := newData;
    }

    /** The record on a row, or `None` for a row outside the table. */
    function PromptByRow(row: int): (r: Option<Prompt>)
      reads this
      ensures r.Some? <==> 0 <= row < |rows|
      ensures r.Some? ==> r.value == rows[row]
    {
      Lookup(rows, row)
    }
  }

  /**
   * When the table shows a search of the store, any record a row yields is a
   * stored record, so deleting its title cannot report "not found".
   */
  lemma SelectedRowIsStored(ps: seq<Prompt>, queryInput: string, row: int)
    ensures var r := Lookup(Search(ps, queryInput), row);
      r.Some? ==> r.value in ps && DeleteByTitle(ps, r.value.title).Some?
  {
    var r := Lookup(Search(ps, queryInput), row);
    if r.Some? {
      SearchSelects(ps, queryInput);
      var i :| 0 <= i < |ps| && ps[i] == r.value;
      DeleteFindsTitle(ps, r.value.title);
    }
  }
}

/** The trace of the chain: the cells it crossed, with entry and exit pins. */
module Paths {

  /** One crossed cell: grid coordinates `u`, `v`, the entry pin and the exit pin. */
  datatype PathItem = PathItem(u: int, v: int, input: int, output: int)

  /** An append-only sequence of path items. */
  class Path {
    var items: seq<PathItem>

    /** A path holding only the synthetic centre entry `(u, v, 0, 0)`. */
    constructor (u: int, v: int)
      ensures items == [PathItem(u, v, 0, 0)]
    {
      items := [];
      new;
      Expand(u, v, 0, 0);
    }

    method Expand(u: int, v: int, input: int, output: int)
      modifies this
      ensures items == old(items) + [PathItem(u, v, input, output)]
      ensures LastOutput() == output
    {
      items := items + [PathItem(u, v, input, output)];
    }

    /** The exit pin of the last item; the path must not be empty. */
    function LastOutput(): (r: int)
      reads this
      requires items != []
    {
      items[|items| - 1].output
    }
  }
}

// Choosing and counting in finite collections.
module Collections {

  /** Some element of a set that is not empty. */
  method Pick<T(==)>(s: set<T>) returns (x: T)
    requires s != {}
    ensures x in s
  {
    x :| x in s;
  }

  /** One and the same element of a set, whenever it is asked for. */
  ghost function Chosen<T>(s: set<T>): (x: T)
    requires s != {}
    ensures x in s
  {
    var x :| x in s; x
  }
}

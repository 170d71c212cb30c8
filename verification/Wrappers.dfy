/**
 * The shapes every component uses: a value that may be missing, a request that may fail, rows deleted one at a time.
 */
module Wrappers {
  datatype Option<+T> = None | Some(value: T) {
    function GetOr(default: T): T {
      if Some? then value else default
    }
  }

  datatype Result<+T, +E> = Ok(value: T) | Err(error: E)

  method RemoveEach<K(==), V>(rows: map<K, V>, gone: set<K>) returns (left: map<K, V>)
    ensures left == rows - gone
  {
    left := rows;
    var todo := gone;
    while todo != {}
      invariant todo <= gone && left == rows - (gone - todo)
      decreases |todo|
    {
      var k :| k in todo;
      left := left - {k};
      todo := todo - {k};
    }
    assert gone - todo == gone;
  }
}

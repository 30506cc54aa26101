/**
 * AbstractPriorityQueue: the key comparison every priority queue of the project shares.
 *
 * Every queue in the project is built with the no-argument constructor, so keys are ordered by
 * DefaultComparator, their natural order. The only key type used is Integer, so keys are `int`
 * and the comparator is Integer's three-way comparison.
 */
module AbstractPriorityQueue {

  /** The comparator: negative, zero or positive as `a` is below, equal to or above `b`. */
  function CompareKeys(a: int, b: int): (r: int)
    ensures r < 0 <==> a < b
    ensures r == 0 <==> a == b
    ensures r > 0 <==> a > b
  {
    if a < b then -1 else if a == b then 0 else 1
  }

  /** checkKey: a key is valid when it compares equal to itself, which every integer does. */
  function CheckKey(key: int): (r: bool)
    ensures r
  {
    CompareKeys(key, key) == 0
  }

  /** isEmpty: a queue is empty exactly when its size is zero. */
  function IsEmpty(size: nat): (r: bool)
    ensures r <==> size == 0
  {
    size == 0
  }
}

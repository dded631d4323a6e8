/** `AssertUtils`: static predicates over strings, index ranges, arrays and collections, and the
    checks that throw when they fail. A Java `null` is `None`; a thrown exception is the returned
    `Some(e)`, and a check that returns normally yields `None`. */
module AssertUtils {
  import opened Wrappers
  import opened JavaText

  /** The three exception types the checks throw, each carrying its message. */
  datatype JavaException =
    | IndexOutOfBounds(message: string)
    | IllegalArgument(message: string)
    | NullPointer(message: string)

  /** `assertIndexOutOfRange`: despite its name, true exactly when the index is inside `[min, max]`. */
  function AssertIndexOutOfRange(index: int, min: int, max: int): (r: bool)
    ensures r <==> min <= index <= max
  {
    if index < min || index > max then false else true
  }

  /** `exceptionIfIndexOutOfRange`: throws `IndexOutOfBoundsException` exactly when
      `assertIndexOutOfRange` is false. */
  function ExceptionIfIndexOutOfRange(index: int, min: int, max: int): (r: Option<JavaException>)
    ensures r.None? <==> AssertIndexOutOfRange(index, min, max)
    ensures r.Some? ==> r.value.IndexOutOfBounds?
  {
    if index < min || index > max then
      Some(IndexOutOfBounds("Index out of range, min index cannot be lower " + IntToString(min)
                            + " , max index cannot be exceed " + IntToString(max) + "."))
    else None
  }

  /** `assertStrBlank`: null, empty, or nothing but characters at or below U+0020. */
  function AssertStrBlank(str: Option<string>): (r: bool)
    ensures r <==> str.None? || forall k :: 0 <= k < |str.value| ==> Trimmable(str.value[k])
  {
    IsBlank(str)
  }

  /** `assertStrNotBlank` is the negation of `assertStrBlank`. */
  function AssertStrNotBlank(str: Option<string>): (r: bool)
    ensures r <==> !AssertStrBlank(str)
    ensures r ==> exists k :: 0 <= k < |str.value| && !Trimmable(str.value[k])
  {
    str.Some? && str.value != [] && Trim(str.value) != []
  }

  /** `exceptionIfStrBlank`: throws `IllegalArgumentException(message)` exactly when the string
      is blank. */
  function ExceptionIfStrBlank(str: Option<string>, message: string): (r: Option<JavaException>)
    ensures r.Some? <==> AssertStrBlank(str)
    ensures r.Some? ==> r.value == IllegalArgument(message)
  {
    if IsBlank(str) then Some(IllegalArgument(message)) else None
  }

  /** `assertArrayEmpty`: the array has no elements. It reads `array.length` without a null
      check, so a null array throws `NullPointerException` (a JVM-generated one, whose message
      is not modelled). */
  function AssertArrayEmpty<T>(arr: Option<seq<T>>): (r: Result<bool, JavaException>)
    ensures r.Failure? <==> arr.None?
    ensures r.Failure? ==> r.error.NullPointer?
    ensures r.Success? ==> (r.value <==> arr.value == [])
  {
    if arr.None? then Failure(NullPointer("")) else Success(|arr.value| <= 0)
  }

  /** `assertArrayNotEmpty`: the negation of `assertArrayEmpty` on a non-null array, and the same
      `NullPointerException` on a null one. */
  function AssertArrayNotEmpty<T>(arr: Option<seq<T>>): (r: Result<bool, JavaException>)
    ensures r.Failure? <==> AssertArrayEmpty(arr).Failure?
    ensures r.Failure? ==> r.error.NullPointer?
    ensures r.Success? ==> (r.value <==> !AssertArrayEmpty(arr).value)
  {
    if arr.None? then Failure(NullPointer("")) else Success(|arr.value| > 0)
  }

  /** `assertCollectionEmpty`: a null or element-less collection (its elements as a multiset). */
  function AssertCollectionEmpty<T>(collection: Option<multiset<T>>): (r: bool)
    ensures r <==> collection.None? || |collection.value| == 0
  {
    collection.None? || collection.value == multiset{}
  }

  /** `assertCollectionNotEmpty` is the negation of `assertCollectionEmpty`. */
  function AssertCollectionNotEmpty<T>(collection: Option<multiset<T>>): (r: bool)
    ensures r <==> !AssertCollectionEmpty(collection)
  {
    collection.Some? && collection.value != multiset{}
  }

  /** `exceptionIfCollectionEmpty`: throws `IllegalArgumentException(message)` exactly when
      `assertCollectionEmpty` holds. */
  function ExceptionIfCollectionEmpty<T>(collection: Option<multiset<T>>, message: string): (r: Option<JavaException>)
    ensures r.Some? <==> AssertCollectionEmpty(collection)
    ensures r.Some? ==> r.value == IllegalArgument(message)
  {
    if collection.None? || collection.value == multiset{} then Some(IllegalArgument(message)) else None
  }

  /** `assertObjNull`. */
  function AssertObjNull<T>(obj: Option<T>): (r: bool)
    ensures r <==> obj == None
  {
    obj.None?
  }

  /** `assertObjNotNull` is the negation of `assertObjNull`. */
  function AssertObjNotNull<T>(obj: Option<T>): (r: bool)
    ensures r <==> !AssertObjNull(obj)
  {
    obj.Some?
  }

  /** `exceptionIfObjNull`: throws `NullPointerException(message)` exactly for a null reference. */
  function ExceptionIfObjNull<T>(obj: Option<T>, message: string): (r: Option<JavaException>)
    ensures r.Some? <==> AssertObjNull(obj)
    ensures r.Some? ==> r.value == NullPointer(message)
  {
    if obj.None? then Some(NullPointer(message)) else None
  }

  /** Decimal rendering used by `String.format("%d", …)` in the exception message. */
  function IntToString(n: int): string
    decreases if n < 0 then 1 - n else n
  {
    if n < 0 then "-" + IntToString(-n)
    else if n < 10 then [(48 + n) as char]
    else IntToString(n / 10) + [(48 + n % 10) as char]
  }
}

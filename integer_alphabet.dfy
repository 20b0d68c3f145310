/**
 * IntegerAlphabet: the alphabet of all 32-bit integers, its symbols, integer arrays viewed
 * as symbol lists, and SubIntegerAlphabet, the finite alphabet of the integers in a closed
 * range [min, max].
 */
module IntegerAlphabets {
  import opened Wrappers
  import opened JavaLang

  /** A symbol: an IntegerSymbol holding a Java int, or a symbol of some other alphabet. */
  datatype Symbol = IntegerSymbol(val: int) | OtherSymbol(name: string)

  datatype AlphabetError =
    | IllegalArgument        // SubIntegerAlphabet with max < min
    | IllegalSymbol          // a value or symbol outside the alphabet
    | ChangeVetoed           // the alphabet is immutable
    | NoSuchParser           // a tokenization other than "token"
    | IndexOutOfBounds       // a position outside an integer array
    | AssertionFailure       // the iterator produced a value getSymbol rejects

  /** IntegerSymbol.equals: two integer symbols are equal exactly when their values are. */
  predicate SymbolEquals(a: Symbol, b: Symbol)
    requires a.IntegerSymbol?
  {
    b.IntegerSymbol? && a.val == b.val
  }

  lemma SymbolEqualsIsValueEquality(a: Symbol, b: Symbol)
    requires a.IntegerSymbol? && b.IntegerSymbol?
    ensures SymbolEquals(a, b) <==> a == b
    ensures SymbolEquals(a, b) <==> SymbolEquals(b, a)
  {
  }

  /** IntegerSymbol.hashCode: 37 * 17 + value in 32-bit arithmetic; equal symbols hash alike. */
  function HashCode(s: Symbol): (h: int)
    requires s.IntegerSymbol? && IsInt(s.val)
    ensures IsInt(h)
    ensures s.val <= INT_MAX - 629 ==> h == 629 + s.val
  {
    ToInt(37 * 17 + s.val)
  }

  /** IntegerSymbol.getName: the decimal text of the value. */
  function SymbolName(s: Symbol): (n: string)
    requires s.IntegerSymbol?
    ensures n == IntToString(s.val)
    ensures s.val >= 0 ==> AllDigits(n)
  {
    IntToString(s.val)
  }

  /** IntegerAlphabet.contains: every IntegerSymbol, whatever its value, and nothing else. */
  predicate Contains(s: Symbol): (r: bool)
    ensures r <==> exists v :: s == IntegerSymbol(v)
    ensures s.OtherSymbol? ==> !r
  {
    s.IntegerSymbol? && s == IntegerSymbol(s.val)
  }

  /** IntegerAlphabet.validate. */
  function Validate(s: Symbol): (r: Result<(), AlphabetError>)
    ensures r.Ok? <==> Contains(s)
  {
    if Contains(s) then Ok(()) else Err(IllegalSymbol)
  }

  /** getTokenization, on either alphabet: only "token" is supported. */
  function Tokenization(name: string): (r: Result<(), AlphabetError>)
    ensures r.Ok? <==> name == "token"
  {
    if name == "token" then Ok(()) else Err(NoSuchParser)
  }

  /** IntegerAlphabet.fromArray: a symbol list over an int array, numbered from 1. */
  datatype IntegerArray = IntegerArray(iArray: seq<int>)
  {
    function Length(): (n: nat)
      ensures n == |iArray|
    {
      |iArray|
    }

    function SymbolAt(i: int): (r: Result<Symbol, AlphabetError>)
      ensures r.Ok? <==> 1 <= i <= Length()
      ensures r.Ok? ==> r.value == IntegerSymbol(iArray[i - 1]) && Contains(r.value)
    {
      if 1 <= i <= |iArray| then Ok(IntegerSymbol(iArray[i - 1])) else Err(IndexOutOfBounds)
    }
  }

  /** Reading an integer array symbol by symbol gives back the array. */
  lemma FromArrayRoundTrip(a: seq<int>)
    ensures forall i :: 1 <= i <= |a| ==> IntegerArray(a).SymbolAt(i).Ok? && IntegerArray(a).SymbolAt(i).value.val == a[i - 1]
  {
  }

  datatype SubIntegerAlphabet = SubIntegerAlphabet(min: int, max: int, name: string)
  {
    /** containsImpl: the symbols of IntegerAlphabet whose value lies in [min, max]. */
    predicate ContainsImpl(s: Symbol): (r: bool)
      ensures r ==> Contains(s) && min <= max
      ensures Contains(s) && s.val == min && min <= max ==> r
      ensures Contains(s) && s.val == max && min <= max ==> r
    {
      Contains(s) && min <= s.val && s.val <= max
    }

    /** getSymbol(int): the symbol for a value in range, else IllegalSymbolException. */
    function GetSymbol(v: int): (r: Result<Symbol, AlphabetError>)
      ensures r.Ok? <==> min <= v <= max
      ensures r.Ok? ==> r.value == IntegerSymbol(v) && ContainsImpl(r.value)
    {
      if v < min || v > max then Err(IllegalSymbol) else Ok(IntegerSymbol(v))
    }

    /** The alphabet contains exactly the symbols getSymbol hands out. */
    lemma ContainsExactlyGetSymbols(s: Symbol)
      ensures ContainsImpl(s) <==> s.IntegerSymbol? && GetSymbol(s.val) == Ok(s)
    {
    }

    /** addSymbol and removeSymbol: the alphabet is immutable. */
    function AddSymbol(s: Symbol): (r: Result<(), AlphabetError>)
      ensures r == Err(ChangeVetoed)
    {
      Err(ChangeVetoed)
    }

    function RemoveSymbol(s: Symbol): (r: Result<(), AlphabetError>)
      ensures r == Err(ChangeVetoed)
    {
      Err(ChangeVetoed)
    }

    /** The number of symbols in the alphabet, as an unbounded integer. */
    function Count(): (n: int)
      ensures min <= max <==> n > 0
    {
      max - min + 1
    }

    /** size(), as written: max - min + 1 in 32-bit arithmetic. */
    function Size(): (n: int)
      requires IsInt(min) && IsInt(max)
      ensures IsInt(n)
      ensures IsInt(max - min + 1) ==> n == Count()
    {
      ToInt(max - min + 1)
    }
  }

  /** The SubIntegerAlphabet constructor: rejects max < min and names the alphabet after its range. */
  function NewSubIntegerAlphabet(min: int, max: int): (r: Result<SubIntegerAlphabet, AlphabetError>)
    ensures r.Ok? <==> min <= max
    ensures r.Ok? ==> r.value.min == min && r.value.max == max
    ensures r.Ok? ==> r.value.name == "SubIntegerAlphabet[" + IntToString(min) + ".." + IntToString(max) + "]"
  {
    if max < min then Err(IllegalArgument)
    else Ok(SubIntegerAlphabet(min, max, "SubIntegerAlphabet[" + IntToString(min) + ".." + IntToString(max) + "]"))
  }

  /**
   * The iterator of a SubIntegerAlphabet: it starts at min and hands out getSymbol(indx),
   * stepping indx, while indx <= max. The step is taken on an unbounded integer; the
   * 32-bit step of the source is WrappedStep below.
   */
  class SubIntegerIterator {
    const alpha: SubIntegerAlphabet
    var indx: int

    constructor (alpha: SubIntegerAlphabet)
      ensures this.alpha == alpha && indx == alpha.min
    {
      this.alpha := alpha;
      indx := alpha.min;
    }

    function HasNext(): (b: bool)
      reads this
      ensures b <==> indx <= alpha.max
    {
      indx <= alpha.max
    }

    method Next() returns (r: Result<Symbol, AlphabetError>)
      modifies this
      ensures old(alpha.min <= indx <= alpha.max) ==> r == Ok(IntegerSymbol(old(indx))) && indx == old(indx) + 1
      ensures !old(alpha.min <= indx <= alpha.max) ==> r == Err(AssertionFailure) && indx == old(indx)
    {
      var s := alpha.GetSymbol(indx);
      if s.Err? {
        return Err(AssertionFailure);
      }
      indx := indx + 1;
      return Ok(s.value);
    }
  }

  /** Iterating an alphabet to the end yields min, min + 1, ..., max, in order. */
  method AllSymbols(alpha: SubIntegerAlphabet) returns (syms: seq<Symbol>)
    requires alpha.min <= alpha.max
    ensures |syms| == alpha.Count()
    ensures forall i :: 0 <= i < |syms| ==> syms[i] == IntegerSymbol(alpha.min + i)
    ensures forall i :: 0 <= i < |syms| ==> alpha.ContainsImpl(syms[i])
  {
    var it := new SubIntegerIterator(alpha);
    syms := [];
    while it.HasNext()
      invariant it.alpha == alpha && alpha.min <= it.indx <= alpha.max + 1
      invariant |syms| == it.indx - alpha.min
      invariant forall i :: 0 <= i < |syms| ==> syms[i] == IntegerSymbol(alpha.min + i)
      decreases alpha.max - it.indx
    {
      var s := it.Next();
      syms := syms + [s.value];
    }
  }

  /** The iterator's step, as written: `indx++` on a Java int. */
  function WrappedStep(indx: int): (n: int)
    requires IsInt(indx)
    ensures IsInt(n)
    ensures indx < INT_MAX ==> n == indx + 1
  {
    ToInt(indx + 1)
  }

  /**
   * With max == Integer.MAX_VALUE the 32-bit step wraps to Integer.MIN_VALUE, which is
   * still <= max, so hasNext stays true and the next call finds a value outside the range.
   */
  lemma WrappedIteratorOverruns()
    ensures var alpha := SubIntegerAlphabet(0, INT_MAX, "SubIntegerAlphabet[0..2147483647]");
      var after := WrappedStep(alpha.max);
      after == INT_MIN && after <= alpha.max && alpha.GetSymbol(after).Err?
  {
  }

  /** size(), as written, is negative for a range of more than Integer.MAX_VALUE symbols. */
  lemma SizeWraps()
    ensures var alpha := SubIntegerAlphabet(0, INT_MAX, "SubIntegerAlphabet[0..2147483647]");
      alpha.Size() == INT_MIN && alpha.Count() == INT_MAX + 1
  {
  }
}

/** RewriteArray and its four-way contract: replace, keep, skip, abort. */
module Arrays {
  import opened Text

  datatype Outcome<+T> = Replace(body: T) | Keep | Skip | Abort

  /** The ordered meaning of an array rewrite; None when some element aborted it. */
  function FilterMap<T>(items: seq<T>, f: T -> Outcome<T>): Option<seq<T>> {
    if items == [] then Some([])
    else match f(items[0])
      case Abort => None
      case Skip => FilterMap(items[1..], f)
      case Keep => Prepend(items[0], FilterMap(items[1..], f))
      case Replace(y) => Prepend(y, FilterMap(items[1..], f))
  }

  function Prepend<T>(x: T, rest: Option<seq<T>>): Option<seq<T>> {
    match rest case Some(xs) => Some([x] + xs) case None => None
  }

  function Append<T>(done: Option<seq<T>>, rest: Option<seq<T>>): Option<seq<T>> {
    match (done, rest)
    case (Some(xs), Some(ys)) => Some(xs + ys)
    case _ => None
  }

  lemma {:induction false} FilterMapConcat<T>(xs: seq<T>, ys: seq<T>, f: T -> Outcome<T>)
    ensures FilterMap(xs + ys, f) == Append(FilterMap(xs, f), FilterMap(ys, f))
  {
    if xs == [] {
      assert xs + ys == ys;
      if FilterMap(ys, f).Some? { assert [] + FilterMap(ys, f).value == FilterMap(ys, f).value; }
    } else {
      assert (xs + ys)[1..] == xs[1..] + ys;
      FilterMapConcat(xs[1..], ys, f);
      if FilterMap(xs[1..], f).Some? && FilterMap(ys, f).Some? && (f(xs[0]).Keep? || f(xs[0]).Replace?) {
        var head := if f(xs[0]).Keep? then xs[0] else f(xs[0]).body;
        var mid, end := FilterMap(xs[1..], f).value, FilterMap(ys, f).value;
        assert ([head] + mid) + end == [head] + (mid + end);
      }
    }
  }

  lemma FilterMapSnoc<T>(xs: seq<T>, x: T, f: T -> Outcome<T>)
    requires FilterMap(xs, f).Some?
    ensures var done := FilterMap(xs, f).value;
            FilterMap(xs + [x], f) == match f(x)
                                      case Abort => None
                                      case Skip => Some(done)
                                      case Keep => Some(done + [x])
                                      case Replace(y) => Some(done + [y])
  {
    FilterMapConcat(xs, [x], f);
    FilterMapOne(x, f);
    var done := FilterMap(xs, f).value;
    assert done + [] == done;
  }

  lemma FilterMapOne<T>(x: T, f: T -> Outcome<T>)
    ensures FilterMap([x], f) == match f(x)
                                 case Abort => None
                                 case Skip => Some([])
                                 case Keep => Some([x])
                                 case Replace(y) => Some([y])
  {
    assert [x][1..] == [] && FilterMap([x][1..], f) == Some([]);
    if f(x).Replace? { assert [f(x).body] + [] == [f(x).body]; }
    assert [x] + [] == [x];
  }

  // ---------------------------------------------------------------- the bracket-and-comma buffer

  function Join(parts: seq<string>, separator: string): string {
    if parts == [] then ""
    else if |parts| == 1 then parts[0]
    else parts[0] + separator + Join(parts[1..], separator)
  }

  lemma {:induction false} JoinSnoc(parts: seq<string>, last: string, separator: string)
    ensures Join(parts + [last], separator) == if parts == [] then last else Join(parts, separator) + separator + last
  {
    if |parts| > 1 {
      assert (parts + [last])[1..] == parts[1..] + [last];
      JoinSnoc(parts[1..], last, separator);
    } else if |parts| == 1 {
      assert (parts + [last])[1..] == [last];
    }
  }

  function ArrayText(parts: seq<string>): string {
    "[" + Join(parts, ",") + "]"
  }

  /**
    The loop over raw elements. The result is the new array text, or None when the transformer
    failed with an error other than SkipItem.
   */
  method RewriteItems(items: seq<string>, transform: string -> Outcome<string>) returns (buffer: Option<string>)
    ensures match FilterMap(items, transform)
            case Some(parts) => buffer == Some(ArrayText(parts))
            case None => buffer.None?
  {
    var text := "[";
    var first := true;
    ghost var parts: seq<string> := [];
    for i := 0 to |items|
      invariant FilterMap(items[..i], transform) == Some(parts)
      invariant first <==> parts == []
      invariant text == "[" + Join(parts, ",")
    {
      assert items[..i + 1] == items[..i] + [items[i]];
      assert items == items[..i + 1] + items[i + 1..];
      FilterMapSnoc(items[..i], items[i], transform);
      FilterMapConcat(items[..i + 1], items[i + 1..], transform);
      var outcome := transform(items[i]);
      if outcome.Abort? {
        return None;
      }
      if !outcome.Skip? {
        if first {
          first := false;
        } else {
          text := text + ",";
        }
        var body := if outcome.Replace? then outcome.body else items[i];
        JoinSnoc(parts, body, ",");
        text := text + body;
        parts := parts + [body];
      }
    }
    assert items[..|items|] == items;
    buffer := Some(text + "]");
  }

  // ---------------------------------------------------------------- laws

  /** First f, then g on what f left. */
  function Then<T>(f: T -> Outcome<T>, g: T -> Outcome<T>): T -> Outcome<T> {
    x => match f(x)
         case Abort => Abort
         case Skip => Skip
         case Keep => g(x)
         case Replace(y) => (match g(y) case Keep => Replace(y) case other => other)
  }

  /** A filter, a rewriter and a last pass that always gives a body, on one element. */
  lemma ThreeInOne<T(!new)>(pass: T -> Outcome<T>, f: T -> Outcome<T>, last: T -> Outcome<T>, x: T)
    requires pass(x).Keep? || pass(x).Skip?
    requires forall y :: last(y).Replace?
    ensures Then(Then(pass, f), last)(x)
            == if pass(x).Skip? then Skip
               else match f(x) case Replace(y) => last(y) case Keep => last(x) case other => other
  {
    var first := Then(pass, f);
    assert first(x) == if pass(x).Skip? then Skip else f(x);
    assert last(x).Replace?;
    if f(x).Replace? { assert last(f(x).body).Replace?; }
    assert Then(first, last)(x) == match first(x)
                                   case Abort => Abort
                                   case Skip => Skip
                                   case Keep => last(x)
                                   case Replace(y) => last(y);
  }

  /** Two passes over an array are one pass of the composed transformer. */
  lemma {:induction false} TwoPassesAreOne<T>(items: seq<T>, f: T -> Outcome<T>, g: T -> Outcome<T>)
    ensures FilterMap(items, Then(f, g))
            == match FilterMap(items, f) case Some(mid) => FilterMap(mid, g) case None => None
    decreases |items|
  {
    if items != [] {
      TwoPassesAreOne(items[1..], f, g);
      var rest := FilterMap(items[1..], f);
      if rest.Some? {
        var head := if f(items[0]).Replace? then f(items[0]).body else items[0];
        assert ([head] + rest.value)[1..] == rest.value;
      }
    }
  }

  /** A transformer that only ever keeps or skips filters: the survivors are the kept elements, in order. */
  lemma {:induction false} KeepOrSkipFilters<T>(items: seq<T>, f: T -> Outcome<T>)
    requires forall x | x in items :: f(x).Keep? || f(x).Skip?
    ensures FilterMap(items, f).Some?
    ensures forall x :: x in FilterMap(items, f).value <==> x in items && f(x).Keep?
    ensures FilterMap(FilterMap(items, f).value, f) == FilterMap(items, f)
  {
    if items != [] {
      KeepOrSkipFilters(items[1..], f);
      var rest := FilterMap(items[1..], f).value;
      assert items == [items[0]] + items[1..];
      assert ([items[0]] + rest)[1..] == rest;
    }
  }

  /** Transformers that agree on the elements give the same result. */
  lemma {:induction false} FilterMapCongruent<T>(items: seq<T>, f: T -> Outcome<T>, g: T -> Outcome<T>)
    requires forall x | x in items :: f(x) == g(x) || (f(x).Keep? && g(x) == Replace(x)) || (f(x) == Replace(x) && g(x).Keep?)
    ensures FilterMap(items, f) == FilterMap(items, g)
  {
    if items != [] {
      assert items[0] in items;
      FilterMapCongruent(items[1..], f, g);
    }
  }
}

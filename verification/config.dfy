/**
 * Loading the declared solution list: the already-parsed JSON value is
 * checked to be an array of strings, then every entry is stripped and the
 * empty ones are dropped.
 */
module Config {
  import opened Wrappers
  import opened Text

  /** A parsed JSON value, as far as the loader distinguishes it. */
  datatype JValue = JArray(elems: seq<JValue>) | JString(str: string) | JOther

  /** What reading the configuration file produced: no file, a file that could not be opened, decoded as UTF-8 or parsed as JSON, or a value. */
  datatype ConfigFile = Absent | Unparsable | Parsed(value: JValue)

  datatype ConfigError = NotFound | ParseFailed | NotStringArray

  /** Every value of the array is a JSON string. */
  predicate AllStrings(vs: seq<JValue>) {
    forall i :: 0 <= i < |vs| ==> vs[i].JString?
  }

  /** The strings of an array, or `None` as soon as one element is not a string. */
  function Strings(vs: seq<JValue>): (r: Option<seq<string>>)
    ensures r.Some? <==> AllStrings(vs)
    ensures r.Some? ==> |r.value| == |vs| && forall i :: 0 <= i < |vs| ==> r.value[i] == vs[i].str
    decreases |vs|
  {
    if |vs| == 0 then Some([])
    else if !vs[0].JString? then None
    else match Strings(vs[1..])
      case None => None
      case Some(rest) => Some([vs[0].str] + rest)
  }

  /** The list comprehension that strips every entry and keeps the non-empty results, in order. */
  function Normalize(xs: seq<string>): (r: seq<string>)
    ensures |r| <= |xs|
    ensures forall k :: 0 <= k < |r| ==> IsClean(r[k])
    ensures forall x :: x in xs && Trim(x) != [] ==> Trim(x) in r
    ensures forall s :: s in r ==> exists x :: x in xs && Trim(x) == s
    decreases |xs|
  {
    if |xs| == 0 then []
    else
      var t := Trim(xs[0]);
      var rest := Normalize(xs[1..]);
      assert xs == [xs[0]] + xs[1..];
      if t != [] then [t] + rest else rest
  }

  /** Normalisation works entry by entry: it distributes over concatenation, so order is preserved. */
  lemma {:induction false} NormalizeAppend(a: seq<string>, b: seq<string>)
    ensures Normalize(a + b) == Normalize(a) + Normalize(b)
    decreases |a|
  {
    if |a| > 0 {
      assert (a + b)[1..] == a[1..] + b;
      NormalizeAppend(a[1..], b);
    } else {
      assert a + b == b;
    }
  }

  /** A list of clean names is left unchanged, so normalising twice is normalising once. */
  lemma {:induction false} NormalizeClean(xs: seq<string>)
    requires forall k :: 0 <= k < |xs| ==> IsClean(xs[k])
    ensures Normalize(xs) == xs
    decreases |xs|
  {
    if |xs| > 0 {
      TrimTrimmed(xs[0]);
      NormalizeClean(xs[1..]);
      assert Normalize(xs) == [xs[0]] + Normalize(xs[1..]);
    }
  }

  lemma NormalizeIdempotent(xs: seq<string>)
    ensures Normalize(Normalize(xs)) == Normalize(xs)
  {
    NormalizeClean(Normalize(xs));
  }

  /** Step 1 of the script: the declared solutions, or why the configuration is rejected. */
  function LoadDeclared(f: ConfigFile): (r: Result<seq<string>, ConfigError>)
    ensures f.Absent? <==> r == Failure(NotFound)
    ensures f.Unparsable? <==> r == Failure(ParseFailed)
    ensures r == Failure(NotStringArray) <==> f.Parsed? && !(f.value.JArray? && AllStrings(f.value.elems))
    ensures r.Success? ==> forall k :: 0 <= k < |r.value| ==> IsClean(r.value[k])
    ensures r.Success? ==>
              && f.Parsed? && f.value.JArray? && Strings(f.value.elems).Some?
              && r.value == Normalize(Strings(f.value.elems).value)
    ensures r.Success? ==> forall s :: s in r.value <==>
              s != [] && exists i :: 0 <= i < |f.value.elems| && Trim(f.value.elems[i].str) == s
  {
    match f
    case Absent => Failure(NotFound)
    case Unparsable => Failure(ParseFailed)
    case Parsed(v) =>
      if !v.JArray? then Failure(NotStringArray)
      else match Strings(v.elems)
        case None => Failure(NotStringArray)
        case Some(xs) =>
          var r := Normalize(xs);
          assert forall s :: s in r <==> s != [] && exists i :: 0 <= i < |v.elems| && Trim(v.elems[i].str) == s by {
            forall s ensures s in r <==> s != [] && exists i :: 0 <= i < |v.elems| && Trim(v.elems[i].str) == s {
              if s in r {
                var x :| x in xs && Trim(x) == s;
                var i :| 0 <= i < |xs| && xs[i] == x;
                assert Trim(v.elems[i].str) == s;
              }
              if s != [] && exists i :: 0 <= i < |v.elems| && Trim(v.elems[i].str) == s {
                var i :| 0 <= i < |v.elems| && Trim(v.elems[i].str) == s;
                assert xs[i] in xs;
              }
            }
          }
          Success(r)
  }
}

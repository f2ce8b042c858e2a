/**
 * Acquiring one position fix: the acceptance test applied to a provider's
 * output and the "gps first, then network, else nothing" choice between the
 * two providers of `termux-location`.
 */
module Location {
  import opened Wrappers
  import opened PyJson

  /** Degrees a coordinate must exceed in magnitude for the fix not to be taken for (0, 0). */
  const Epsilon: real := 0.001

  /** What one run of `termux-location -p <provider> -r once` gave. */
  datatype ProviderOutcome =
    | Raised              // the process could not start, timed out, or printed something that is not JSON
    | NoOutput            // non-zero exit status, or blank standard output
    | Output(data: Object) // the JSON object printed on standard output

  /** How a provider's outcome is treated by the caller. */
  datatype Verdict =
    | Accept  // return this provider's object
    | Reject  // go on to the next provider, if any
    | Abort   // an exception escaped: no fix this time, whatever the other provider would say

  function RealAbs(x: real): real {
    if x < 0.0 then -x else x
  }

  /** A fix whose two coordinates are both non-zero and not both within Epsilon of zero. */
  predicate PlausibleFix(lat: real, lon: real) {
    lat != 0.0 && lon != 0.0 && (RealAbs(lat) > Epsilon || RealAbs(lon) > Epsilon)
  }

  predicate IsNumber(v: Json) {
    v.JInt? || v.JFloat?
  }

  function NumberValue(v: Json): real
    requires IsNumber(v)
  {
    if v.JInt? then v.i as real else v.f
  }

  /**
   * The acceptance test on a provider's object. Python's `and`/`or` short-circuit:
   * `abs(lon)` is only evaluated when `abs(lat)` does not exceed Epsilon, and
   * `abs` of a truthy string raises.
   */
  function Screen(d: Object): (v: Verdict)
    ensures "latitude" !in d || "longitude" !in d ==> v == Reject
    ensures v == Accept ==>
      "latitude" in d && "longitude" in d && Truthy(d["latitude"]) && Truthy(d["longitude"])
    ensures v == Abort ==>
      "latitude" in d && "longitude" in d && (Abs(d["latitude"]).None? || Abs(d["longitude"]).None?)
    ensures "latitude" in d && "longitude" in d && IsNumber(d["latitude"]) && IsNumber(d["longitude"]) ==>
      v != Abort && (v == Accept <==> PlausibleFix(NumberValue(d["latitude"]), NumberValue(d["longitude"])))
  {
    if "latitude" in d && "longitude" in d then
      var lat := Get(d, "latitude");
      var lon := Get(d, "longitude");
      if !Truthy(lat) || !Truthy(lon) then Reject
      else match Abs(lat)
        case None => Abort
        case Some(a) =>
          if a > Epsilon then Accept
          else match Abs(lon)
            case None => Abort
            case Some(b) => if b > Epsilon then Accept else Reject
    else Reject
  }

  /**
   * The test stops at the first coordinate whose magnitude exceeds Epsilon, so
   * a string longitude after a large latitude is accepted, a string longitude
   * after a small one raises, and bool coordinates never raise.
   */
  lemma ShortCircuit()
    ensures Screen(map["latitude" := JFloat(45.0, "45.0"), "longitude" := JStr("x")]) == Accept
    ensures Screen(map["latitude" := JFloat(0.0005, "0.0005"), "longitude" := JStr("x")]) == Abort
    ensures Screen(map["latitude" := JBool(true), "longitude" := JBool(true)]) == Accept
  {
  }

  function Consult(o: ProviderOutcome): (v: Verdict)
    ensures o.Raised? ==> v == Abort
    ensures o.NoOutput? ==> v == Reject
    ensures v == Accept ==> o.Output?
    ensures o.Output? ==> v == Screen(o.data)
  {
    match o
    case Raised => Abort
    case NoOutput => Reject
    case Output(d) => Screen(d)
  }

  /**
   * `get_current_gps`: nothing off Termux; otherwise the gps provider's object
   * if it passes the screen; the network provider is run only when the gps
   * provider's outcome was rejected without an exception.
   */
  function Acquire(termux: bool, gps: ProviderOutcome, network: ProviderOutcome): (r: Option<Object>)
    ensures !termux ==> r == None
    ensures termux && Consult(gps) == Accept ==> r == Some(gps.data)
    ensures Consult(gps) != Reject ==>
      r == (if termux && Consult(gps) == Accept then Some(gps.data) else None)
    ensures termux && Consult(gps) == Reject ==>
      r == (if Consult(network) == Accept then Some(network.data) else None)
    ensures r.Some? ==> Screen(r.value) == Accept && |r.value| > 0
    ensures r.Some? ==> gps == Output(r.value) || network == Output(r.value)
  {
    if !termux then None
    else match Consult(gps)
      case Accept => Some(gps.data)
      case Abort => None
      case Reject =>
        match Consult(network)
        case Accept => Some(network.data)
        case _ => None
  }
}

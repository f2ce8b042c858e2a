/**
 * The one-line command protocol read by the bridge process: space-separated
 * tokens `s <contact> rt <count> <delay>` to start a range test and
 * `s <contact> rs` to stop one. Decode is this model's reading of the line,
 * the inverse that Encode is proved against.
 */
module Protocol {
  import opened Wrappers

  /** Tokens joined with single spaces. */
  function Join(ts: seq<string>): (line: string)
    requires |ts| > 0
    decreases |ts|
  {
    if |ts| == 1 then ts[0] else ts[0] + " " + Join(ts[1..])
  }

  /** `line.split(' ')`: the pieces between single spaces, empty ones included. */
  function Split(line: string): (ts: seq<string>)
    ensures |ts| > 0
    decreases |line|
  {
    if line == [] then [""]
    else
      var rest := Split(line[1..]);
      if line[0] == ' ' then [""] + rest else [[line[0]] + rest[0]] + rest[1..]
  }

  lemma {:induction false} SplitWord(w: string)
    requires ' ' !in w
    ensures Split(w) == [w]
    decreases |w|
  {
    if w != [] {
      SplitWord(w[1..]);
      assert [w[0]] + w[1..] == w;
    }
  }

  lemma {:induction false} SplitAfterWord(w: string, line: string)
    requires ' ' !in w
    ensures Split(w + " " + line) == [w] + Split(line)
    decreases |w|
  {
    if w == [] {
      assert w + " " + line == [' '] + line;
      assert ([' '] + line)[1..] == line;
    } else {
      SplitAfterWord(w[1..], line);
      assert (w + " " + line)[1..] == w[1..] + " " + line;
      assert [w[0]] + w[1..] == w;
    }
  }

  /** Splitting undoes joining, as long as no token contains a space. */
  lemma {:induction false} SplitJoin(ts: seq<string>)
    requires |ts| > 0
    requires forall i :: 0 <= i < |ts| ==> ' ' !in ts[i]
    ensures Split(Join(ts)) == ts
    decreases |ts|
  {
    if |ts| == 1 {
      SplitWord(ts[0]);
    } else {
      SplitJoin(ts[1..]);
      SplitAfterWord(ts[0], Join(ts[1..]));
      assert [ts[0]] + ts[1..] == ts;
    }
  }

  /** A command for the bridge, each field already rendered as text. */
  datatype Command =
    | Start(contact: string, count: string, delay: string)
    | Stop(contact: string)

  function Tokens(c: Command): (ts: seq<string>)
    ensures |ts| > 0
  {
    match c
    case Start(contact, count, delay) => ["s", contact, "rt", count, delay]
    case Stop(contact) => ["s", contact, "rs"]
  }

  /** A command whose fields contain no space, so that each is one token. */
  predicate Unambiguous(c: Command) {
    forall i :: 0 <= i < |Tokens(c)| ==> ' ' !in Tokens(c)[i]
  }

  /** The protocol line for a command. */
  function Encode(c: Command): (line: string)
    ensures c.Start? ==> line == "s " + c.contact + " rt " + c.count + " " + c.delay
    ensures c.Stop? ==> line == "s " + c.contact + " rs"
  {
    match c
    case Start(contact, count, delay) =>
      assert Join([count, delay]) == count + " " + delay;
      assert Join(["rt", count, delay]) == "rt" + " " + Join([count, delay]);
      assert Join([contact, "rt", count, delay]) == contact + " " + Join(["rt", count, delay]);
      assert Join(Tokens(c)) == "s" + " " + Join([contact, "rt", count, delay]);
      Join(Tokens(c))
    case Stop(contact) =>
      assert Join([contact, "rs"]) == contact + " " + "rs";
      assert Join(Tokens(c)) == "s" + " " + Join([contact, "rs"]);
      Join(Tokens(c))
  }

  /** The command a protocol line stands for, if it is one. */
  function Decode(line: string): Option<Command> {
    var ts := Split(line);
    if |ts| == 5 && ts[0] == "s" && ts[2] == "rt" then Some(Start(ts[1], ts[3], ts[4]))
    else if |ts| == 3 && ts[0] == "s" && ts[2] == "rs" then Some(Stop(ts[1]))
    else None
  }

  /** Round trip: the bridge reads back exactly the command that was encoded. */
  lemma DecodeEncode(c: Command)
    requires Unambiguous(c)
    ensures Decode(Encode(c)) == Some(c)
  {
    SplitJoin(Tokens(c));
  }
}

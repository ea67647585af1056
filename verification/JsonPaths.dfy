/** Where a value stands in a payload tree. */
module JsonPaths {
  import opened Json

  datatype Step = Name(k: string) | Index(i: nat)

  /** The value at a path; a path that leaves the tree reads Null. */
  function Read(t: Json<string>, path: seq<Step>): Json<string>
    decreases |path|
  {
    if path == [] then t
    else
      match path[0]
      case Name(k) => Read(Child(t, k), path[1..])
      case Index(i) => Read(if t.List? && i < |t.xs| then t.xs[i] else Null, path[1..])
  }

  lemma {:induction false} NullReadsNull(path: seq<Step>)
    ensures Read(Null, path) == Null
  {
    if path != [] { NullReadsNull(path[1..]); }
  }

  /** Reading on from where a path leads. */
  lemma {:induction false} ReadOn(t: Json<string>, path: seq<Step>, s: Step)
    ensures Read(t, path + [s]) == Read(Read(t, path), [s])
    decreases |path|
  {
    if path == [] {
      assert path + [s] == [s];
    } else {
      var below := match path[0] case Name(k) => Child(t, k) case Index(i) => if t.List? && i < |t.xs| then t.xs[i] else Null;
      assert (path + [s])[1..] == path[1..] + [s] && (path + [s])[0] == path[0];
      ReadOn(below, path[1..], s);
    }
  }
}

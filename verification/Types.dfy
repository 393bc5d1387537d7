/** The small types that several components share. */
module Types {

  datatype Option<+T> = None | Some(value: T)

  type byte = x: int | 0 <= x < 0x100

  type uint16 = x: int | 0 <= x < 0x1_0000

  type uint32 = x: int | 0 <= x < 0x1_0000_0000

  /** One sequence after the other. */
  function Concat<T>(ss: seq<seq<T>>): seq<T> {
    if ss == [] then [] else Concat(ss[..|ss| - 1]) + ss[|ss| - 1]
  }

  lemma {:induction false} ConcatCons<T>(a: seq<T>, ss: seq<seq<T>>)
    ensures Concat([a] + ss) == a + Concat(ss)
  {
    if ss == [] {
      assert ([a] + ss)[..0] == [];
    } else {
      var n := |ss| - 1;
      ConcatCons(a, ss[..n]);
      assert ([a] + ss)[..n + 1] == [a] + ss[..n];
      assert a + Concat(ss[..n]) + ss[n] == a + (Concat(ss[..n]) + ss[n]);
    }
  }

  /** The outcome of a buffer processing routine of a session. */
  datatype ProcessResult = Success | Failed
}

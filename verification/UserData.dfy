/** User data as the session layer sees it: five optional parts, each an opaque serialized message. */
module UserData {

  datatype Part = Unset | Set(bytes: seq<int>)

  datatype Data = Data(info: Part, record: Part, table: Part, teaBar: Part, game: Part)

  const EMPTY := Data(Unset, Unset, Unset, Unset, Unset)

  function Known(data: map<int, Data>, uid: int): Data {
    if uid in data then data[uid] else EMPTY
  }

  function Over(des: Part, src: Part): (p: Part) {
    if src.Set? then src else des
  }

  /** Every part the source has replaces the destination's. */
  function Merge(des: Data, src: Data): (d: Data) {
    Data(Over(des.info, src.info), Over(des.record, src.record), Over(des.table, src.table),
         Over(des.teaBar, src.teaBar), Over(des.game, src.game))
  }

  function Parts(d: Data): (s: seq<Part>)
    ensures |s| == 5
  {
    [d.info, d.record, d.table, d.teaBar, d.game]
  }

  /** Merging is the overlay of two partial maps from part numbers: right-biased, associative, with the empty data as
      its unit, and doing it again changes nothing. */
  lemma MergeIsOverlay(a: Data, b: Data, c: Data)
    ensures forall i :: 0 <= i < 5 ==> Parts(Merge(a, b))[i] == if Parts(b)[i].Set? then Parts(b)[i] else Parts(a)[i]
    ensures Merge(Merge(a, b), c) == Merge(a, Merge(b, c))
    ensures Merge(EMPTY, a) == a == Merge(a, EMPTY)
    ensures Merge(Merge(a, b), b) == Merge(a, b)
  {
  }

  /** Replacing instead of merging gives the same exactly when the new data leaves out no part the old data had. */
  lemma MergeIsReplacement(old_: Data, new_: Data)
    ensures Merge(old_, new_) == new_ <==> forall i :: 0 <= i < 5 ==> Parts(old_)[i].Set? ==> Parts(new_)[i].Set?
  {
    if forall i :: 0 <= i < 5 ==> Parts(old_)[i].Set? ==> Parts(new_)[i].Set? {
      assert Parts(old_)[0].Set? ==> Parts(new_)[0].Set?;
      assert Parts(old_)[1].Set? ==> Parts(new_)[1].Set?;
      assert Parts(old_)[2].Set? ==> Parts(new_)[2].Set?;
      assert Parts(old_)[3].Set? ==> Parts(new_)[3].Set?;
      assert Parts(old_)[4].Set? ==> Parts(new_)[4].Set?;
    }
  }
}

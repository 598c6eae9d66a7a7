/**
  The consistency of the datagram's two views, and how insertion and
  removal keep it.
 */
module ViewsConsistency {
  import opened IonValues
  import opened Positions
  import opened Resolver

  /**
    The views are consistent: both hold known values, the physical view has
    no value twice, and the user view is embedded in the physical view in order.
   */
  ghost predicate ViewsOk(values: map<ValueId, Value>, contents: seq<ValueId>,
                          user: seq<ValueId>, upos: seq<nat>)
  {
    ViewsResolve(values, contents, user) && Distinct(contents) && Embedded(user, contents, upos)
  }

  /** Growing or updating the value arena keeps the views consistent. */
  lemma ViewsOkGrow(values: map<ValueId, Value>, values': map<ValueId, Value>, contents: seq<ValueId>,
                    user: seq<ValueId>, upos: seq<nat>)
    requires ViewsOk(values, contents, user, upos)
    requires values.Keys <= values'.Keys
    ensures ViewsOk(values', contents, user, upos)
  {
  }

  /** Inserting a known value the physical view lacks, at a position consistent with the user view, keeps the views consistent. */
  lemma ViewsOkInsert(values: map<ValueId, Value>, contents: seq<ValueId>, user: seq<ValueId>,
                      upos: seq<nat>, e: ValueId, systemPos: nat, userPos: int)
    requires ViewsOk(values, contents, user, upos)
    requires e in values && e !in contents
    requires systemPos <= |contents|
    requires userPos == -1 || (0 <= userPos <= |user| &&
               forall k :: 0 <= k < |upos| ==> (k < userPos <==> upos[k] < systemPos))
    ensures ViewsOk(values, InsertAt(contents, systemPos, e),
                    if userPos == -1 then user else InsertAt(user, userPos, e),
                    if userPos == -1 then ShiftUp(upos, systemPos)
                    else InsertAt(ShiftUp(upos, systemPos), userPos, systemPos))
  {
    DistinctInsert(contents, systemPos, e);
    if userPos == -1 {
      EmbeddedInsert(user, contents, upos, systemPos, e);
    } else {
      EmbeddedInsertBoth(user, contents, upos, systemPos, userPos, e);
    }
  }

  /** Taking the user value at user position `i` out of both views keeps the views consistent. */
  lemma ViewsOkRemove(values: map<ValueId, Value>, contents: seq<ValueId>, user: seq<ValueId>,
                      upos: seq<nat>, i: nat)
    requires ViewsOk(values, contents, user, upos)
    requires i < |user|
    ensures ViewsOk(values, RemoveAt(contents, upos[i]), RemoveAt(user, i),
                    ShiftDown(RemoveAt(upos, i), upos[i]))
  {
    DistinctRemove(contents, upos[i]);
    EmbeddedRemoveBoth(user, contents, upos, i);
  }
}

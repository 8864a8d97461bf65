/**
 The device descriptor object pool (DDOP) as the task controller sees it: a list of objects, each
 with a 16-bit object id. Reading the list by index may also yield nothing (`Null`).
 */
module DeviceDescriptor {

  datatype PoolObject =
    | Null
    | Device(id: nat)
    | Element(id: nat, number: nat, parent: nat, children: seq<nat>)
    | ProcessData(id: nat, ddi: nat, settable: bool, onChange: bool, timeInterval: bool)
    | Other(id: nat)

  type Pool = seq<PoolObject>

  datatype Option<+T> = None | Some(value: T)

  // DDIs of the ISO 11783-11 data dictionary that the task controller handles.
  const ACTUAL_WORK_STATE := 141
  const SECTION_CONTROL_STATE := 160
  const ACTUAL_CONDENSED_FIRST := 161
  const ACTUAL_CONDENSED_LAST := 176
  const SETPOINT_WORK_STATE := 289
  const SETPOINT_CONDENSED_FIRST := 290
  const SETPOINT_CONDENSED_LAST := 305
  const OVERRIDE_CONDENSED_FIRST := 367
  const OVERRIDE_CONDENSED_LAST := 382
  const GNSS_QUALITY := 514

  /** The first object with the given id. */
  function FindById(pool: Pool, id: nat): Option<PoolObject> {
    if pool == [] then None
    else if !pool[0].Null? && pool[0].id == id then Some(pool[0])
    else FindById(pool[1..], id)
  }

  /** Whether the first process data object with this DDI can be set by the task controller. */
  function IsDdiSettable(pool: Pool, ddi: nat): bool {
    if pool == [] then false
    else if pool[0].ProcessData? && pool[0].ddi == ddi then pool[0].settable
    else IsDdiSettable(pool[1..], ddi)
  }

  /** Index `j` holds the first object with this id. */
  ghost predicate IsFirstWithId(pool: Pool, j: int, id: nat) {
    && 0 <= j < |pool| && !pool[j].Null? && pool[j].id == id
    && forall k :: 0 <= k < j && !pool[k].Null? ==> pool[k].id != id
  }

  lemma {:induction false} FindByIdIsFirst(pool: Pool, id: nat)
    ensures match FindById(pool, id)
            case Some(o) => exists j :: IsFirstWithId(pool, j, id) && pool[j] == o
            case None => forall j :: 0 <= j < |pool| && !pool[j].Null? ==> pool[j].id != id
  {
    if pool != [] {
      FindByIdIsFirst(pool[1..], id);
      if !pool[0].Null? && pool[0].id == id {
        assert IsFirstWithId(pool, 0, id);
      } else if FindById(pool, id).Some? {
        var j :| IsFirstWithId(pool[1..], j, id) && pool[1..][j] == FindById(pool, id).value;
        assert IsFirstWithId(pool, j + 1, id);
      }
    }
  }

  /** The first process data object with this DDI can be set by the task controller. */
  ghost predicate CanBeSet(pool: Pool, ddi: nat) {
    exists j :: && 0 <= j < |pool| && pool[j].ProcessData? && pool[j].ddi == ddi && pool[j].settable
                && forall k :: 0 <= k < j && pool[k].ProcessData? ==> pool[k].ddi != ddi
  }

  lemma {:induction false} SettableIff(pool: Pool, ddi: nat)
    ensures IsDdiSettable(pool, ddi) <==> CanBeSet(pool, ddi)
  {
    if pool != [] {
      SettableIff(pool[1..], ddi);
      if CanBeSet(pool, ddi) && !(pool[0].ProcessData? && pool[0].ddi == ddi) {
        var j :| && 0 <= j < |pool| && pool[j].ProcessData? && pool[j].ddi == ddi && pool[j].settable
                 && forall k :: 0 <= k < j && pool[k].ProcessData? ==> pool[k].ddi != ddi;
        assert pool[1..][j - 1] == pool[j];
      }
      if CanBeSet(pool[1..], ddi) && !(pool[0].ProcessData? && pool[0].ddi == ddi) {
        var rest := pool[1..];
        var j :| && 0 <= j < |rest| && rest[j].ProcessData? && rest[j].ddi == ddi && rest[j].settable
                 && forall k :: 0 <= k < j && rest[k].ProcessData? ==> rest[k].ddi != ddi;
        assert pool[j + 1] == rest[j];
        forall k | 0 <= k < j + 1 && pool[k].ProcessData? ensures pool[k].ddi != ddi {
          if k > 0 {
            assert rest[k - 1] == pool[k];
          }
        }
      }
    }
  }
}

/** The session: one `Long` under the key `user_id` of the private preferences `taste_session`. */
module SessionStore {
  import opened Wrappers

  /**
   * `getLong(KEY_USER, 0L)`: the stored id, or 0 when the key is absent. A nonzero read names
   * the stored id; a read of 0 cannot tell an absent key from a stored 0.
   */
  function ReadUserId(slot: Option<int>): (k: int)
    ensures k != 0 ==> slot == Some(k)
    ensures k == 0 <==> slot == None || slot == Some(0)
  {
    slot.GetOr(0)
  }

  /** Storing 0 and removing the key read back the same. */
  lemma StoredZeroReadsAsCleared()
    ensures ReadUserId(Some(0)) == ReadUserId(None) == 0
  {
  }

  class Session {
    /** The preference slot: `None` when the key is absent. */
    var slot: Option<int>

    /** The process starts from what the preferences file holds. */
    constructor (persisted: Option<int>)
      ensures slot == persisted
    {
      slot := persisted;
    }

    /** `userId`: `getLong` with default 0, so a nonzero user id is one `setUser` stored. */
    function UserId(): (id: int)
      reads this
      ensures id != 0 ==> slot == Some(id)
    {
      ReadUserId(slot)
    }

    /** `setUser`: `putLong` overwrites any earlier value. */
    method SetUser(id: int)
      modifies this
      ensures slot == Some(id) && UserId() == id
    {
      slot := Some(id);
    }

    /** `clear`: `remove(KEY_USER)`; clearing twice is clearing once. */
    method Clear()
      modifies this
      ensures slot == None && UserId() == 0
    {
      slot := None;
    }
  }
}

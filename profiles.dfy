/** The profile service: one profile per user, created, listed, fetched by user, deleted and updated. */
module Profiles {
  import opened Wrappers
  import opened Schema
  import opened Repository
  import opened Transaction

  /** The column get_profile_user looks a profile up by. */
  function ProfileUser(p: Profile): Id {
    p.userId
  }

  /**
   * Stores a profile and returns its id. A user id that is not positive is refused before the
   * unit of work is entered; a second profile for the same user is refused by the store.
   */
  method AddProfileUser(uow: UnitOfWork, data: Profile) returns (r: Result<Id, Error>)
    requires uow.Valid()
    modifies uow
    ensures uow.Valid()
    ensures data.userId <= 0 ==>
              r == Failure(UserIdNotPositive)
              && uow.committed == old(uow.committed) && uow.current == old(uow.current)
              && uow.open == old(uow.open) && uow.session == old(uow.session)
    ensures data.userId > 0 ==>
              var db := old(uow.committed);
              && uow.Idle()
              && if Clashes(db.profile.rows, ProfileClash, data) then
                   r == Failure(DuplicateEntry) && uow.committed == db.(profile := db.profile.Skipped())
                 else
                   && r == Success(db.profile.nextId) && db.profile.nextId !in db.profile.rows
                   && uow.committed == db.(profile := db.profile.Inserted(data))
  {
    if data.userId <= 0 {
      return Failure(UserIdNotPositive);
    }
    uow.Enter();
    ProfileInsertedValid(uow.current, data);
    var s := AddOne(uow.current.profile, ProfileClash, data, true);
    uow.current := uow.current.(profile := s.table);
    uow.KeepSequences();
    if s.result.Success? {
      uow.Commit();
    }
    uow.Exit();
    r := s.result;
  }

  /** Every profile, each once, in id order. */
  method GetProfilesUsers(uow: UnitOfWork) returns (rs: seq<Entry<Profile>>)
    requires uow.Valid()
    modifies uow
    ensures uow.Idle() && uow.committed == old(uow.committed)
    ensures var rows := uow.committed.profile.rows;
            forall e :: e in rs <==> e.id in rows && e.rec == rows[e.id]
    ensures Ascending(rs)
  {
    uow.Enter();
    rs := FindAll(uow.current.profile);
    uow.Exit();
  }

  /**
   * The profile of the given user. The unique constraint on `user_id` leaves at most one, so
   * the single-row lookup never fails with several matches.
   */
  method GetProfileUser(uow: UnitOfWork, userId: Id) returns (r: Result<Entry<Profile>, Error>)
    requires uow.Valid()
    modifies uow
    ensures uow.Idle() && uow.committed == old(uow.committed)
    ensures var rows := uow.committed.profile.rows;
            && (r.Failure? <==> forall k :: k in rows ==> rows[k].userId != userId)
            && (r.Failure? ==> r.error == ProfileNotFound)
            && (r.Success? ==> r.value.id in rows && r.value.rec == rows[r.value.id]
                               && r.value.rec.userId == userId)
  {
    uow.Enter();
    var f := FindOneByParam(uow.current.profile, ProfileUser, userId);
    uow.Exit();
    if f.Failure? {
      assert false;
    } else if f.value.Some? {
      r := Success(f.value.value);
    } else {
      r := Failure(ProfileNotFound);
    }
  }

  /** Deletes the given user's profile and returns its id; a user without one is reported. */
  method DeleteProfileUser(uow: UnitOfWork, userId: Id) returns (r: Result<Id, Error>)
    requires uow.Valid()
    modifies uow
    ensures uow.Idle()
    ensures var db := old(uow.committed);
            if forall k :: k in db.profile.rows ==> db.profile.rows[k].userId != userId then
              r == Failure(ProfileNotFound) && uow.committed == db
            else
              && r.Success? && r.value in db.profile.rows
              && db.profile.rows[r.value].userId == userId
              && uow.committed == db.(profile := db.profile.Removed(r.value))
  {
    var p := GetProfileUser(uow, userId);
    if p.Failure? {
      return Failure(p.error);
    }
    uow.Enter();
    var s := DeleteOne(uow.current.profile, p.value.id);
    ProfileRemovedValid(uow.current, p.value.id);
    uow.current := uow.current.(profile := s.table);
    if s.result.Success? {
      uow.Commit();
    }
    uow.Exit();
    r := s.result;
  }

  /**
   * Writes the three profile fields of the given profile id (an omitted field is stored as
   * NULL) and returns them; the owner is kept.
   */
  method UpdateProfile(uow: UnitOfWork, profileId: Id, data: ProfileUpdate) returns (r: Result<ProfileUpdate, Error>)
    requires uow.Valid()
    modifies uow
    ensures uow.Idle()
    ensures var db := old(uow.committed);
            if profileId !in db.profile.rows then
              r == Failure(IdNotFound) && uow.committed == db
            else
              var p := db.profile.rows[profileId];
              && r == Success(data)
              && uow.committed == db.(profile := db.profile.Put(profileId,
                                        Profile(p.userId, data.firstName, data.lastName, data.bio)))
  {
    uow.Enter();
    var cur := uow.current;
    if profileId in cur.profile.rows {
      var np := ApplyProfileUpdate(cur.profile.rows[profileId], data).value;
      SameKeysNoClash(cur.profile, ProfileClash, profileId, np);
      ProfilePutValid(cur, profileId, np);
    }
    var s := UpdateOne(cur.profile, ProfileClash, profileId, data, ApplyProfileUpdate, (p: Profile) => true);
    uow.current := cur.(profile := s.table);
    if s.result.Success? {
      uow.Commit();
    }
    uow.Exit();
    r := s.result;
  }
}

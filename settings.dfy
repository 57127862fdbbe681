/**
 * The settings screen (app/tabs/settings.tsx): the profile it loads, renaming
 * the current user, and unlinking the partner with two separate row updates.
 *
 * The user `getCurrentUser()` resolves to, the query answers and whether each
 * write reaches the backend are parameters.
 */
module Settings {
  import opened Common
  import opened Text
  import opened Tables

  const NameMissing: string := "Please enter a name"
  const LogInAgain: string := "Please log in again"
  const NameSaveFailed: string := "Failed to update name"
  const NoPartner: string := "No partner to unlink"
  const UnlinkFailed: string := "Failed to unlink partner"

  /** `update({ is_paired: false, partner_id: null }).eq('id', id)`. */
  function ClearPairing(users: seq<User>, id: string): (r: seq<User>)
    ensures |r| == |users|
    ensures forall i :: 0 <= i < |users| && users[i].id != id ==> r[i] == users[i]
    ensures forall i :: 0 <= i < |users| && users[i].id == id ==> r[i] == users[i].(isPaired := false, partnerId := None)
  {
    UpdateWhere(users, (u: User) => u.id == id, (u: User) => u.(isPaired := false, partnerId := None))
  }

  /** Both updates of `unlinkPartner`: the current user's rows, then the partner's. */
  function Unlink(users: seq<User>, me: string, partner: string): seq<User>
  {
    ClearPairing(ClearPairing(users, me), partner)
  }

  /** After a full unlink both sides are unpaired with no partner; every other row and every other
    * column is as it was. */
  lemma UnlinkEffect(users: seq<User>, me: string, partner: string)
    ensures |Unlink(users, me, partner)| == |users|
    ensures forall i :: 0 <= i < |users| && (users[i].id == me || users[i].id == partner) ==>
              Unlink(users, me, partner)[i] == users[i].(isPaired := false, partnerId := None)
    ensures forall i :: 0 <= i < |users| && users[i].id != me && users[i].id != partner ==>
              Unlink(users, me, partner)[i] == users[i]
  {
    var half := ClearPairing(users, me);
    forall i | 0 <= i < |users| ensures half[i].id == users[i].id {
    }
  }

  /** The two updates may be issued in either order. */
  lemma UnlinkSymmetric(users: seq<User>, me: string, partner: string)
    ensures Unlink(users, me, partner) == Unlink(users, partner, me)
  {
    UnlinkEffect(users, me, partner);
    UnlinkEffect(users, partner, me);
  }

  /** `is_paired` and `partner_id` agree in both directions for every pair of rows. */
  predicate PairingSymmetric(users: seq<User>)
  {
    forall i, j :: 0 <= i < |users| && 0 <= j < |users| && users[i].isPaired && users[i].partnerId == Some(users[j].id) ==>
      users[j].isPaired && users[j].partnerId == Some(users[i].id)
  }

  predicate UniqueIds(users: seq<User>)
  {
    forall i, j :: 0 <= i < j < |users| ==> users[i].id != users[j].id
  }

  /** Unlinking a paired user from the partner its row names keeps the pairing symmetric. */
  lemma UnlinkKeepsSymmetry(users: seq<User>, k: nat)
    requires UniqueIds(users) && PairingSymmetric(users)
    requires k < |users| && users[k].isPaired && users[k].partnerId.Some?
    ensures PairingSymmetric(Unlink(users, users[k].id, users[k].partnerId.value))
  {
    var me := users[k].id;
    var partner := users[k].partnerId.value;
    var r := Unlink(users, me, partner);
    UnlinkEffect(users, me, partner);
    forall i, j | 0 <= i < |r| && 0 <= j < |r| && r[i].isPaired && r[i].partnerId == Some(r[j].id)
      ensures r[j].isPaired && r[j].partnerId == Some(r[i].id)
    {
      assert users[i].id != me && users[i].id != partner;
      assert r[j].id == users[j].id;
      assert users[j].isPaired && users[j].partnerId == Some(users[i].id);
    }
  }

  /** When the second update fails, the partner's row still names the user, who is no longer paired:
    * the pairing is left one-sided. */
  lemma HalfUnlinkBreaksSymmetry(users: seq<User>, k: nat, m: nat)
    requires PairingSymmetric(users)
    requires k < |users| && m < |users| && users[k].id != users[m].id
    requires users[k].isPaired && users[k].partnerId == Some(users[m].id)
    ensures ClearPairing(users, users[k].id)[m] == users[m]
    ensures !PairingSymmetric(ClearPairing(users, users[k].id))
  {
    var r := ClearPairing(users, users[k].id);
    assert r[m].isPaired && r[m].partnerId == Some(r[k].id);
    assert !r[k].isPaired;
  }

  /** `update({ name: name.trim() }).eq('id', id)`. */
  function RenameRows(users: seq<User>, id: string, name: string): seq<User>
  {
    UpdateWhere(users, (u: User) => u.id == id, (u: User) => u.(name := name))
  }

  /** Renaming changes the name of the rows with that id, and no other column or row. */
  lemma RenameEffect(users: seq<User>, id: string, name: string)
    ensures |RenameRows(users, id, name)| == |users|
    ensures forall i :: 0 <= i < |users| && users[i].id != id ==> RenameRows(users, id, name)[i] == users[i]
    ensures forall i :: 0 <= i < |users| && users[i].id == id ==> RenameRows(users, id, name)[i] == users[i].(name := name)
  {
  }

  /** `if (user.is_paired && user.partner_id)`: whether the partner's name is looked up. */
  predicate WantsPartner(u: User)
  {
    u.isPaired && u.partnerId.Some? && u.partnerId.value != []
  }

  /** The settings screen's state. */
  class SettingsScreen {
    var name: string
    var partnerName: string
    var coupleCode: string
    var currentUser: Option<User>
    var isSaving: bool

    constructor()
      ensures name == [] && partnerName == [] && coupleCode == [] && currentUser == None && !isSaving
    {
      name, partnerName, coupleCode, currentUser, isSaving := [], [], [], None, false;
    }

    /** `loadCurrentUser()`: with no user nothing changes; otherwise the user and the typed name are
      * set, the couple code when the couple is found, and the partner's name only when the user is
      * paired and names a partner that is found. */
    method LoadCurrentUser(user: Option<User>, couples: Fetch<Couple>, partners: Fetch<User>)
      modifies this
      ensures user.None? ==> name == old(name) && partnerName == old(partnerName) && coupleCode == old(coupleCode)
                             && currentUser == old(currentUser)
      ensures user.Some? ==> currentUser == user && name == user.value.name
      ensures user.Some? && user.value.coupleId != [] && couples.Rows?
              && FirstWhere(couples.rows, (c: Couple) => c.id == user.value.coupleId).Some? ==>
                coupleCode == FirstWhere(couples.rows, (c: Couple) => c.id == user.value.coupleId).value.coupleCode
      ensures user.Some? && !(user.value.coupleId != [] && couples.Rows?
              && FirstWhere(couples.rows, (c: Couple) => c.id == user.value.coupleId).Some?) ==>
                coupleCode == old(coupleCode)
      ensures partnerName != old(partnerName) ==>
                user.Some? && WantsPartner(user.value) && partners.Rows?
                && FirstWhere(partners.rows, (p: User) => p.id == user.value.partnerId.value).Some?
                && partnerName == FirstWhere(partners.rows, (p: User) => p.id == user.value.partnerId.value).value.name
      ensures user.Some? && WantsPartner(user.value) && partners.Rows?
              && FirstWhere(partners.rows, (p: User) => p.id == user.value.partnerId.value).Some? ==>
                partnerName == FirstWhere(partners.rows, (p: User) => p.id == user.value.partnerId.value).value.name
      ensures isSaving == old(isSaving)
    {
      if user.None? {
        return;
      }
      var u := user.value;
      currentUser := user;
      name := u.name;
      if u.coupleId != [] && couples.Rows? {
        var found := FirstWhere(couples.rows, (c: Couple) => c.id == u.coupleId);
        if found.Some? {
          coupleCode := found.value.coupleCode;
        }
      }
      if WantsPartner(u) && partners.Rows? {
        var found := FirstWhere(partners.rows, (p: User) => p.id == u.partnerId.value);
        if found.Some? {
          partnerName := found.value.name;
        }
      }
    }

    /** `saveName()`: a blank name or no user is refused with nothing written; otherwise only the
      * current user's name changes, to the trimmed text. */
    method SaveName(db: Backend, up: bool) returns (outcome: Result<string, string>)
      modifies this, db
      ensures db.bets == old(db.bets) && db.couples == old(db.couples)
      ensures name == old(name) && currentUser == old(currentUser)
      ensures partnerName == old(partnerName) && coupleCode == old(coupleCode)
      ensures var typed := Trim(old(name));
              (typed == [] ==> outcome == Err(NameMissing) && db.users == old(db.users) && isSaving == old(isSaving))
              && (typed != [] && currentUser.None? ==>
                    outcome == Err(LogInAgain) && db.users == old(db.users) && isSaving == old(isSaving))
              && (typed != [] && currentUser.Some? && !up ==>
                    outcome == Err(NameSaveFailed) && db.users == old(db.users) && !isSaving)
              && (typed != [] && currentUser.Some? && up ==>
                    outcome == Ok(typed) && db.users == RenameRows(old(db.users), currentUser.value.id, typed) && !isSaving)
    {
      var trimmed := Trim(name);
      if trimmed == [] {
        return Err(NameMissing);
      }
      if currentUser.None? {
        return Err(LogInAgain);
      }
      isSaving := true;
      if up {
        db.users := RenameRows(db.users, currentUser.value.id, trimmed);
        outcome := Ok(trimmed);
      } else {
        outcome := Err(NameSaveFailed);
      }
      isSaving := false;
    }

    /** `unlinkPartner()`: without a user or a partner id nothing is written; otherwise the user's
      * rows are cleared, and then, only if that write succeeded, the partner's. */
    method UnlinkPartner(db: Backend, up1: bool, up2: bool) returns (outcome: Result<(), string>)
      modifies db
      ensures db.bets == old(db.bets) && db.couples == old(db.couples)
      ensures currentUser.None? || currentUser.value.partnerId.None? || currentUser.value.partnerId.value == [] ==>
                outcome == Err(NoPartner) && db.users == old(db.users)
      ensures currentUser.Some? && currentUser.value.partnerId.Some? && currentUser.value.partnerId.value != [] ==>
                var me := currentUser.value.id;
                var partner := currentUser.value.partnerId.value;
                (!up1 ==> outcome == Err(UnlinkFailed) && db.users == old(db.users))
                && (up1 && !up2 ==> outcome == Err(UnlinkFailed) && db.users == ClearPairing(old(db.users), me))
                && (up1 && up2 ==> outcome == Ok(()) && db.users == Unlink(old(db.users), me, partner))
    {
      if currentUser.None? || currentUser.value.partnerId.None? || currentUser.value.partnerId.value == [] {
        return Err(NoPartner);
      }
      var me := currentUser.value.id;
      var partner := currentUser.value.partnerId.value;
      if !up1 {
        return Err(UnlinkFailed);
      }
      db.users := ClearPairing(db.users, me);
      if !up2 {
        return Err(UnlinkFailed);
      }
      db.users := ClearPairing(db.users, partner);
      outcome := Ok(());
    }
  }
}

/** The batched credit-feed update: CASE WHEN over a batch against records processed one at a time. */
module BulkUpdate {
  import opened Wrappers

  datatype Record = Record(phone: string, creditScore: Option<int>, scoreUpdate: Option<int>)

  datatype User = User(id: string, creditScore: int)

  /** The users table, by its unique phone column. */
  type Users = map<string, User>

  predicate DistinctIds(users: Users) {
    forall p, q | p in users && q in users && users[p].id == users[q].id :: p == q
  }

  function Clamp(x: int): int {
    if x < 0 then 0 else if x > 1000 then 1000 else x
  }

  /** The clamped score a record asks for, given the stored one: absolute first, then delta. */
  function NewScore(score: int, r: Record): Option<int> {
    if r.creditScore.Some? then Some(Clamp(r.creditScore.value))
    else if r.scoreUpdate.Some? then Some(Clamp(score + r.scoreUpdate.value))
    else None
  }

  // ---------------------------------------------------------------- One record at a time

  function Single(users: Users, r: Record): Users {
    if r.phone in users && NewScore(users[r.phone].creditScore, r).Some?
    then users[r.phone := users[r.phone].(creditScore := NewScore(users[r.phone].creditScore, r).value)]
    else users
  }

  function Singles(users: Users, rs: seq<Record>): Users
    decreases |rs|
  {
    if rs == [] then users else Single(Singles(users, rs[..|rs| - 1]), rs[|rs| - 1])
  }

  /** What one record makes of a known user. An absolute score v leaves max(0, min(1000, v)), whatever was
      stored and whatever delta comes with it; a delta d alone leaves max(0, min(1000, s + d)); neither
      changes nothing. Unknown phones and all other users are left alone. */
  lemma RecordDecides(users: Users, r: Record)
    ensures Single(users, r).Keys == users.Keys
    ensures forall p | p in users && p != r.phone :: Single(users, r)[p] == users[p]
    ensures r.phone in users ==>
              var s, u := users[r.phone].creditScore, Single(users, r)[r.phone];
              && u.id == users[r.phone].id
              && (r.creditScore.Some? ==>
                    var v := r.creditScore.value;
                    && (0 <= v <= 1000 ==> u.creditScore == v)
                    && (v < 0 ==> u.creditScore == 0) && (v > 1000 ==> u.creditScore == 1000))
              && (r.creditScore.None? && r.scoreUpdate.Some? ==>
                    var v := s + r.scoreUpdate.value;
                    && (0 <= v <= 1000 ==> u.creditScore == v)
                    && (v < 0 ==> u.creditScore == 0) && (v > 1000 ==> u.creditScore == 1000))
              && (r.creditScore.None? && r.scoreUpdate.None? ==> u.creditScore == s)
  {
  }

  /** Sending an absolute score again changes nothing, and it wipes out whatever a record before it did. */
  lemma AbsoluteScoreIsLastWord(users: Users, before: Record, r: Record)
    requires r.creditScore.Some? && before.phone == r.phone
    ensures Single(Single(users, r), r) == Single(users, r)
    ensures Single(Single(users, before), r) == Single(users, r)
  {
    RecordDecides(users, r);
    RecordDecides(users, before);
    RecordDecides(Single(users, before), r);
    RecordDecides(Single(users, r), r);
  }

  /** Deltas that stay inside the range add up. */
  lemma DeltasAddUp(users: Users, r: Record, q: Record)
    requires r.phone == q.phone && r.phone in users
    requires r.creditScore.None? && q.creditScore.None? && r.scoreUpdate.Some? && q.scoreUpdate.Some?
    requires 0 <= users[r.phone].creditScore + r.scoreUpdate.value <= 1000
    ensures Single(Single(users, r), q)
            == Single(users, r.(scoreUpdate := Some(r.scoreUpdate.value + q.scoreUpdate.value)))
  {
  }

  // ---------------------------------------------------------------- One batch

  predicate Changes(score: int, r: Record) {
    NewScore(score, r).Some? && NewScore(score, r).value != score
  }

  /** The value of the first record of the batch for this phone that would change the stored score. */
  function FirstChange(batch: seq<Record>, phone: string, score: int): Option<int> {
    if batch == [] then None
    else if FirstChange(batch[..|batch| - 1], phone, score).Some? then FirstChange(batch[..|batch| - 1], phone, score)
    else
      var r := batch[|batch| - 1];
      if r.phone == phone && Changes(score, r) then NewScore(score, r) else None
  }

  function AfterBatch(u: User, phone: string, batch: seq<Record>): User {
    var c := FirstChange(batch, phone, u.creditScore);
    if c.Some? then u.(creditScore := c.value) else u
  }

  function Batched(users: Users, batch: seq<Record>): Users {
    map p | p in users :: AfterBatch(users[p], p, batch)
  }

  predicate Usable(users: Users, r: Record) {
    r.phone in users && (r.creditScore.Some? || r.scoreUpdate.Some?)
  }

  function UsableCount(users: Users, rs: seq<Record>): nat {
    if rs == [] then 0
    else UsableCount(users, rs[..|rs| - 1]) + if Usable(users, rs[|rs| - 1]) then 1 else 0
  }

  /** The count is of the records that name a known phone and carry a score or a delta. */
  lemma {:induction false} UsableCountCounts(users: Users, rs: seq<Record>)
    ensures UsableCount(users, rs)
            == |set i | 0 <= i < |rs| && rs[i].phone in users && (rs[i].creditScore.Some? || rs[i].scoreUpdate.Some?)|
  {
    if rs != [] {
      var init, n := rs[..|rs| - 1], |rs| - 1;
      UsableCountCounts(users, init);
      var before := set i | 0 <= i < |init| && init[i].phone in users
                            && (init[i].creditScore.Some? || init[i].scoreUpdate.Some?);
      var after := set i | 0 <= i < |rs| && rs[i].phone in users
                           && (rs[i].creditScore.Some? || rs[i].scoreUpdate.Some?);
      if rs[n].phone in users && (rs[n].creditScore.Some? || rs[n].scoreUpdate.Some?) {
        assert after == before + {n};
      } else {
        assert after == before;
      }
    }
  }

  // ---------------------------------------------------------------- The whole feed

  /** fails(k): the k-th batch throws, before anything of it is stored. */
  type Failures = nat -> bool

  function BatchEnd(i: nat, size: nat, n: nat): nat {
    if i + size <= n then i + size else n
  }

  /** The table after the batches that start at record i, the k-th batch first. */
  function Bulk(users: Users, rs: seq<Record>, size: nat, fails: Failures, i: nat, k: nat): Users
    requires size > 0 && i <= |rs|
    decreases |rs| - i
  {
    if i == |rs| then users
    else
      var j := BatchEnd(i, size, |rs|);
      Bulk(if fails(k) then users else Batched(users, rs[i..j]), rs, size, fails, j, k + 1)
  }

  /** Records counted as processed by the batches that start at record i and do not fail. */
  function BulkProcessed(users: Users, rs: seq<Record>, size: nat, fails: Failures, i: nat, k: nat): nat
    requires size > 0 && i <= |rs|
    decreases |rs| - i
  {
    if i == |rs| then 0
    else
      var j := BatchEnd(i, size, |rs|);
      (if fails(k) then 0 else UsableCount(users, rs[i..j])) + BulkProcessed(users, rs, size, fails, j, k + 1)
  }

  lemma {:induction false} SameKeysSameCount(users: Users, users': Users, rs: seq<Record>)
    requires users.Keys == users'.Keys
    ensures UsableCount(users, rs) == UsableCount(users', rs)
  {
    if rs != [] {
      SameKeysSameCount(users, users', rs[..|rs| - 1]);
    }
  }

  /** Without failures every usable record of the feed is processed, for every batch size. */
  lemma {:induction false} AllUsableProcessed(users: Users, rs: seq<Record>, size: nat, fails: Failures, i: nat, k: nat)
    requires size > 0 && i <= |rs| && forall b: nat :: !fails(b)
    ensures BulkProcessed(users, rs, size, fails, i, k) == UsableCount(users, rs[i..])
    decreases |rs| - i
  {
    if i < |rs| {
      var j := BatchEnd(i, size, |rs|);
      AllUsableProcessed(users, rs, size, fails, j, k + 1);
      UsableConcat(users, rs[i..j], rs[j..]);
      assert rs[i..j] + rs[j..] == rs[i..];
    }
  }

  lemma {:induction false} UsableConcat(users: Users, rs: seq<Record>, qs: seq<Record>)
    ensures UsableCount(users, rs + qs) == UsableCount(users, rs) + UsableCount(users, qs)
    decreases |qs|
  {
    if qs == [] {
      assert rs + qs == rs;
    } else {
      assert (rs + qs)[..|rs + qs| - 1] == rs + qs[..|qs| - 1];
      UsableConcat(users, rs, qs[..|qs| - 1]);
    }
  }

  // ---------------------------------------------------------------- Refinement

  predicate DistinctPhones(rs: seq<Record>) {
    forall i, j | 0 <= i < j < |rs| :: rs[i].phone != rs[j].phone
  }

  lemma {:induction false} NoRecordNoChange(batch: seq<Record>, phone: string, score: int)
    requires forall i | 0 <= i < |batch| :: batch[i].phone != phone
    ensures FirstChange(batch, phone, score) == None
  {
    if batch != [] {
      NoRecordNoChange(batch[..|batch| - 1], phone, score);
    }
  }

  /** Within a batch that names each phone once, the stale read does no harm. */
  lemma {:induction false} BatchIsSingles(users: Users, batch: seq<Record>)
    requires DistinctPhones(batch)
    ensures Batched(users, batch) == Singles(users, batch)
  {
    if batch == [] {
    } else {
      var init, r := batch[..|batch| - 1], batch[|batch| - 1];
      BatchIsSingles(users, init);
      forall p | p in users
        ensures AfterBatch(users[p], p, batch) == Single(Singles(users, init), r)[p]
      {
        if p == r.phone {
          NoRecordNoChange(init, p, users[p].creditScore);
        }
      }
    }
  }

  lemma {:induction false} SinglesConcat(users: Users, rs: seq<Record>, qs: seq<Record>)
    ensures Singles(users, rs + qs) == Singles(Singles(users, rs), qs)
    decreases |qs|
  {
    if qs == [] {
      assert rs + qs == rs;
    } else {
      assert (rs + qs)[..|rs + qs| - 1] == rs + qs[..|qs| - 1];
      SinglesConcat(users, rs, qs[..|qs| - 1]);
    }
  }

  // ---------------------------------------------------------------- Repeated phones

  /** The score the records of one phone lead to, each seeing what the one before it stored. */
  function Folded(rs: seq<Record>, phone: string, score: int): int {
    if rs == [] then score
    else
      var before, r := Folded(rs[..|rs| - 1], phone, score), rs[|rs| - 1];
      if r.phone == phone && NewScore(before, r).Some? then NewScore(before, r).value else before
  }

  lemma {:induction false} SinglesFold(users: Users, rs: seq<Record>)
    ensures Singles(users, rs) == map p | p in users :: users[p].(creditScore := Folded(rs, p, users[p].creditScore))
  {
    if rs != [] {
      SinglesFold(users, rs[..|rs| - 1]);
    }
  }

  lemma {:induction false} FoldedConcat(rs: seq<Record>, qs: seq<Record>, phone: string, score: int)
    ensures Folded(rs + qs, phone, score) == Folded(qs, phone, Folded(rs, phone, score))
    decreases |qs|
  {
    if qs == [] {
      assert rs + qs == rs;
    } else {
      assert (rs + qs)[..|rs + qs| - 1] == rs + qs[..|qs| - 1];
      FoldedConcat(rs, qs[..|qs| - 1], phone, score);
    }
  }

  /** The index of the first record of the phone that would change the stored score, or |batch|. */
  function FirstChangeAt(batch: seq<Record>, phone: string, score: int): (i: nat)
    ensures i <= |batch|
    ensures forall j | 0 <= j < i && batch[j].phone == phone :: !Changes(score, batch[j])
    ensures i < |batch| ==> batch[i].phone == phone && Changes(score, batch[i])
  {
    if batch == [] then 0
    else
      var i := FirstChangeAt(batch[..|batch| - 1], phone, score);
      if i < |batch| - 1 || (batch[|batch| - 1].phone == phone && Changes(score, batch[|batch| - 1])) then i
      else |batch|
  }

  /** The phone's records after its first changing one lead from that one's value back to it. */
  predicate LaterRecordsReturn(batch: seq<Record>, phone: string, score: int) {
    var i := FirstChangeAt(batch, phone, score);
    i < |batch| ==>
      Folded(batch[i + 1..], phone, NewScore(score, batch[i]).value) == NewScore(score, batch[i]).value
  }

  lemma {:induction false} QuietRecordsFold(batch: seq<Record>, phone: string, score: int)
    requires forall j | 0 <= j < |batch| && batch[j].phone == phone :: !Changes(score, batch[j])
    ensures Folded(batch, phone, score) == score
  {
    if batch != [] {
      QuietRecordsFold(batch[..|batch| - 1], phone, score);
    }
  }

  /** For one user the batch and the records taken singly agree exactly then. */
  lemma UserAgreesExactlyWhen(batch: seq<Record>, phone: string, u: User)
    ensures AfterBatch(u, phone, batch).creditScore == Folded(batch, phone, u.creditScore)
            <==> LaterRecordsReturn(batch, phone, u.creditScore)
  {
    var i := FirstChangeAt(batch, phone, u.creditScore);
    FirstChangeIsAt(batch, phone, u.creditScore);
    if i == |batch| {
      QuietRecordsFold(batch, phone, u.creditScore);
    } else {
      var v := NewScore(u.creditScore, batch[i]).value;
      QuietRecordsFold(batch[..i], phone, u.creditScore);
      FoldedConcat(batch[..i + 1], batch[i + 1..], phone, u.creditScore);
      assert batch[..i + 1] + batch[i + 1..] == batch && batch[..i + 1][..i] == batch[..i];
      assert Folded(batch[..i + 1], phone, u.creditScore) == v;
    }
  }

  lemma {:induction false} FirstChangeIsAt(batch: seq<Record>, phone: string, score: int)
    ensures FirstChange(batch, phone, score)
            == var i := FirstChangeAt(batch, phone, score);
               if i < |batch| then NewScore(score, batch[i]) else None
  {
    if batch != [] {
      FirstChangeIsAt(batch[..|batch| - 1], phone, score);
    }
  }

  /** A batch with repeated phones loses no update exactly when, for every user, the records after the
      first changing one lead back to its value. */
  lemma BatchIsSinglesExactlyWhen(users: Users, batch: seq<Record>)
    ensures Batched(users, batch) == Singles(users, batch)
            <==> forall p | p in users :: LaterRecordsReturn(batch, p, users[p].creditScore)
  {
    SinglesFold(users, batch);
    forall p | p in users
      ensures Batched(users, batch)[p] == Singles(users, batch)[p]
              <==> LaterRecordsReturn(batch, p, users[p].creditScore)
    {
      UserAgreesExactlyWhen(batch, p, users[p]);
    }
    assert Batched(users, batch).Keys == Singles(users, batch).Keys;
    if forall p | p in users :: LaterRecordsReturn(batch, p, users[p].creditScore) {
      assert forall p | p in users :: Batched(users, batch)[p] == Singles(users, batch)[p];
    }
    hide Batched, Singles, LaterRecordsReturn;
  }

  // ---------------------------------------------------------------- The feed against single records

  /** Every batch from record i on loses no update on the table it meets. */
  predicate LosesNothing(users: Users, rs: seq<Record>, size: nat, i: nat)
    requires size > 0 && i <= |rs|
    decreases |rs| - i
  {
    i < |rs| ==>
      var j := BatchEnd(i, size, |rs|);
      && (forall p | p in users :: LaterRecordsReturn(rs[i..j], p, users[p].creditScore))
      && LosesNothing(Singles(users, rs[i..j]), rs, size, j)
  }

  lemma {:induction false} BulkFromIsSingles(users: Users, rs: seq<Record>, size: nat, fails: Failures, i: nat, k: nat)
    requires size > 0 && i <= |rs| && LosesNothing(users, rs, size, i) && forall b: nat :: !fails(b)
    ensures Bulk(users, rs, size, fails, i, k) == Singles(users, rs[i..])
    decreases |rs| - i
  {
    if i < |rs| {
      var j := BatchEnd(i, size, |rs|);
      BatchIsSinglesExactlyWhen(users, rs[i..j]);
      SinglesConcat(users, rs[i..j], rs[j..]);
      assert rs[i..j] + rs[j..] == rs[i..];
      BulkFromIsSingles(Singles(users, rs[i..j]), rs, size, fails, j, k + 1);
    }
  }

  /** The batch size is invisible as long as no batch fails and none loses an update. */
  lemma BulkRefinesOneAtATime(users: Users, rs: seq<Record>, size: nat, fails: Failures)
    requires size > 0 && LosesNothing(users, rs, size, 0) && forall b: nat :: !fails(b)
    ensures Bulk(users, rs, size, fails, 0, 0) == Singles(users, rs)
  {
    BulkFromIsSingles(users, rs, size, fails, 0, 0);
    assert rs[0..] == rs;
  }

  /** No phone occurs twice in one batch of the feed; across batches it may. */
  predicate DistinctWithinBatches(rs: seq<Record>, size: nat, i: nat)
    requires size > 0 && i <= |rs|
    decreases |rs| - i
  {
    i < |rs| ==>
      var j := BatchEnd(i, size, |rs|);
      DistinctPhones(rs[i..j]) && DistinctWithinBatches(rs, size, j)
  }

  /** In particular when no batch repeats a phone, whatever the stored scores. */
  lemma {:induction false} DistinctBatchesLoseNothing(users: Users, rs: seq<Record>, size: nat, i: nat)
    requires size > 0 && i <= |rs| && DistinctWithinBatches(rs, size, i)
    ensures LosesNothing(users, rs, size, i)
    decreases |rs| - i
  {
    if i < |rs| {
      var j := BatchEnd(i, size, |rs|);
      BatchIsSingles(users, rs[i..j]);
      BatchIsSinglesExactlyWhen(users, rs[i..j]);
      DistinctBatchesLoseNothing(Singles(users, rs[i..j]), rs, size, j);
    }
  }

  /** A batch leaves a user either untouched, when no record would change the stored score, or at the
      clamped value of the first one that would, whatever comes after it. */
  lemma {:induction false} FirstChangeWins(batch: seq<Record>, phone: string, score: int)
    ensures match FirstChange(batch, phone, score)
            case None => forall i | 0 <= i < |batch| && batch[i].phone == phone :: !Changes(score, batch[i])
            case Some(v) =>
              exists i :: 0 <= i < |batch| && batch[i].phone == phone && Changes(score, batch[i])
                && NewScore(score, batch[i]) == Some(v) && 0 <= v <= 1000
                && forall j | 0 <= j < i && batch[j].phone == phone :: !Changes(score, batch[j])
  {
    if batch != [] {
      var init, r := batch[..|batch| - 1], batch[|batch| - 1];
      FirstChangeWins(init, phone, score);
      match FirstChange(init, phone, score) {
        case Some(v) =>
          var i :| 0 <= i < |init| && init[i].phone == phone && Changes(score, init[i])
                   && NewScore(score, init[i]) == Some(v)
                   && forall j | 0 <= j < i && init[j].phone == phone :: !Changes(score, init[j]);
          assert batch[i] == init[i];
        case None =>
          assert batch[|batch| - 1] == r;
      }
    }
  }

  /** With a repeated phone the batch size shows: two +10 deltas move 500 to 520 one at a time, and to
      510 in one batch, because both are computed from the score read at its start. */
  lemma RepeatedDeltaLosesAnUpdate(phone: string, fails: Failures)
    requires forall k: nat :: !fails(k)
    ensures var users, r := map[phone := User("u", 500)], Record(phone, None, Some(10));
            && Bulk(users, [r, r], 1, fails, 0, 0) == map[phone := User("u", 520)]
            && Bulk(users, [r, r], 2, fails, 0, 0) == map[phone := User("u", 510)]
  {
    var users: Users, r := map[phone := User("u", 500)], Record(phone, None, Some(10));
    var rs := [r, r];
    assert rs[0..1] == [r] && rs[1..2] == [r] && rs[0..2] == rs && rs[..1] == [r] && [r][..0] == [];
    assert FirstChange([], phone, 500) == None && FirstChange([], phone, 510) == None;
    assert FirstChange([r], phone, 500) == Some(510) && FirstChange([r], phone, 510) == Some(520);
    var one, two := map[phone := User("u", 510)], map[phone := User("u", 520)];
    assert Batched(users, [r]) == one && Batched(one, [r]) == two && Batched(users, rs) == one;
    assert Bulk(one, rs, 1, fails, 1, 1) == Bulk(two, rs, 1, fails, 2, 2) == two;
    assert Bulk(one, rs, 2, fails, 2, 1) == one;
  }

  // ---------------------------------------------------------------- The service

  datatype Update = Update(id: string, newScore: int)

  /** CASE id WHEN ... THEN ... ELSE "creditScore" END: the first matching arm wins. */
  function Case(updates: seq<Update>, id: string, score: int): int {
    if updates == [] then score
    else if updates[0].id == id then updates[0].newScore
    else Case(updates[1..], id, score)
  }

  lemma {:induction false} CaseAppend(updates: seq<Update>, u: Update, id: string, score: int)
    ensures Case(updates + [u], id, score)
            == if exists k :: 0 <= k < |updates| && updates[k].id == id then Case(updates, id, score)
               else if u.id == id then u.newScore else score
  {
    if updates != [] {
      assert (updates + [u])[1..] == updates[1..] + [u];
      CaseAppend(updates[1..], u, id, score);
      assert forall k | 0 < k < |updates| :: updates[k] == updates[1..][k - 1];
    }
  }

  class BulkUpdateService {
    var users: Users
    const batchSize: nat

    constructor (users: Users, batchSize: nat)
      ensures this.users == users && this.batchSize == batchSize
    {
      this.users := users;
      this.batchSize := batchSize;
    }

    /** The arms gathered from a batch give each user the first change, and nobody else anything. */
    ghost predicate ArmsFor(users: Users, updates: seq<Update>, batch: seq<Record>) {
      forall p | p in users ::
        && Case(updates, users[p].id, users[p].creditScore) == AfterBatch(users[p], p, batch).creditScore
        && ((exists k :: 0 <= k < |updates| && updates[k].id == users[p].id)
            <==> FirstChange(batch, p, users[p].creditScore).Some?)
    }

    lemma ArmsGrow(users: Users, updates: seq<Update>, batch: seq<Record>, r: Record)
      requires DistinctIds(users) && ArmsFor(users, updates, batch)
      ensures var changed := r.phone in users && Changes(users[r.phone].creditScore, r);
              ArmsFor(users,
                      if changed then updates + [Update(users[r.phone].id, NewScore(users[r.phone].creditScore, r).value)]
                      else updates,
                      batch + [r])
    {
      assert (batch + [r])[..|batch|] == batch;
      if r.phone in users && Changes(users[r.phone].creditScore, r) {
        var u := Update(users[r.phone].id, NewScore(users[r.phone].creditScore, r).value);
        forall p | p in users
          ensures Case(updates + [u], users[p].id, users[p].creditScore)
                  == AfterBatch(users[p], p, batch + [r]).creditScore
          ensures (exists k :: 0 <= k < |updates + [u]| && (updates + [u])[k].id == users[p].id)
                  <==> FirstChange(batch + [r], p, users[p].creditScore).Some?
        {
          CaseAppend(updates, u, users[p].id, users[p].creditScore);
          assert (updates + [u])[|updates|] == u;
          assert forall k | 0 <= k < |updates| :: (updates + [u])[k] == updates[k];
        }
      }
    }

    lemma ArmsGiveBatch(users: Users, updates: seq<Update>, batch: seq<Record>)
      requires ArmsFor(users, updates, batch)
      ensures (map p | p in users :: users[p].(creditScore := Case(updates, users[p].id, users[p].creditScore)))
              == Batched(users, batch)
    {
    }

    /** One batch; nothing is stored when the database fails. */
    method ProcessBatch(batch: seq<Record>, fails: bool) returns (processed: nat, errors: nat, thrown: bool)
      requires DistinctIds(users)
      modifies this
      ensures thrown == fails
      ensures users == if fails then old(users) else Batched(old(users), batch)
      ensures processed == UsableCount(old(users), batch) && processed + errors == |batch|
    {
      processed, errors, thrown := 0, 0, fails;
      assert ArmsFor(users, [], batch[..0]);
      hide ArmsFor, DistinctIds, AfterBatch, FirstChange, Case, Batched;
      var updates: seq<Update> := [];
      for i := 0 to |batch|
        invariant users == old(users)
        invariant processed == UsableCount(users, batch[..i]) && processed + errors == i
        invariant ArmsFor(users, updates, batch[..i])
      {
        var r := batch[i];
        assert batch[..i + 1] == batch[..i] + [r] && batch[..i + 1][..i] == batch[..i];
        ArmsGrow(users, updates, batch[..i], r);
        if r.phone !in users || (r.creditScore.None? && r.scoreUpdate.None?) {
          errors := errors + 1;
        } else {
          var user := users[r.phone];
          var newScore := if r.creditScore.Some? then r.creditScore.value
                          else user.creditScore + r.scoreUpdate.value;
          newScore := Clamp(newScore);
          if newScore != user.creditScore {
            updates := updates + [Update(user.id, newScore)];
          }
          processed := processed + 1;
        }
      }
      assert batch[..|batch|] == batch;
      ArmsGiveBatch(users, updates, batch);
      if !fails {
        users := map p | p in users :: users[p].(creditScore := Case(updates, users[p].id, users[p].creditScore));
      }
    }

    /** processed + errors is the record count whichever batches fail. */
    method BulkUpdateCreditScores(records: seq<Record>, fails: Failures) returns (processed: nat, errors: nat)
      requires batchSize > 0 && DistinctIds(users)
      modifies this
      ensures users == Bulk(old(users), records, batchSize, fails, 0, 0)
      ensures processed == BulkProcessed(old(users), records, batchSize, fails, 0, 0)
      ensures processed + errors == |records|
    {
      processed, errors := 0, 0;
      var i, k := 0, 0;
      while i < |records|
        invariant i <= |records| && processed + errors == i && DistinctIds(users)
        invariant users.Keys == old(users).Keys
        invariant processed + BulkProcessed(old(users), records, batchSize, fails, i, k)
                  == BulkProcessed(old(users), records, batchSize, fails, 0, 0)
        invariant Bulk(users, records, batchSize, fails, i, k) == Bulk(old(users), records, batchSize, fails, 0, 0)
      {
        var j := BatchEnd(i, batchSize, |records|);
        SameKeysSameCount(users, old(users), records[i..j]);
        var p, e, thrown := ProcessBatch(records[i..j], fails(k));
        if thrown {
          errors := errors + (j - i);
        } else {
          processed, errors := processed + p, errors + e;
        }
        i, k := j, k + 1;
      }
    }
  }
}

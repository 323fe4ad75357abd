/**
 * The enemy record the enemy manager keeps, the combat events it
 * broadcasts, and the list functions its methods are specified by.
 * The record's own header is not part of this model: its fields are the
 * ones the manager reads and writes, and its IsAlive and ApplyDamage
 * members are parameters of the operations that call them.
 */
module EnemyData {
  import opened Vectors

  /** EEnemyType, in the order the manager's switch lists it. */
  datatype EnemyType = CrystalGolem | EliteGolem | BossGolem

  /** EEnemyState: a spawned enemy is idle; the other states are only told apart. */
  datatype EnemyState = Idle | OtherState(code: nat)

  /** A GUID; 0 stands for the invalid, default-constructed FGuid. */
  type Guid = nat

  /** FEnemyData, as far as the manager touches it. */
  datatype Enemy = Enemy(
    id: Guid,
    enemyType: EnemyType,
    position: Vec3,
    health: real,
    maxHealth: real,
    state: EnemyState,
    isActive: bool,
    name: string,
    extraData: map<string, real>)

  datatype CombatEventType = EnemySpawned | EnemyDamaged | EnemyKilled

  /** FCombatEvent without its timestamp. */
  datatype CombatEvent = CombatEvent(eventType: CombatEventType, entityId: Guid, extraData: map<string, real>)

  /** The display name given to each enemy type. */
  function NameOf(t: EnemyType): string
  {
    match t
    case CrystalGolem => "Crystal Golem"
    case EliteGolem => "Elite Golem"
    case BossGolem => "Boss Golem"
  }

  /** The enum value of the type, cast to a float. */
  function TypeCode(t: EnemyType): real
  {
    match t
    case CrystalGolem => 0.0
    case EliteGolem => 1.0
    case BossGolem => 2.0
  }

  /** A freshly spawned enemy: full health, idle, active, named after its type. */
  function NewEnemy(id: Guid, t: EnemyType, position: Vec3, maxHealth: real): Enemy
  {
    Enemy(id, t, position, maxHealth, maxHealth, Idle, true, NameOf(t), map[])
  }

  /** The event announcing a spawn. */
  function SpawnEvent(id: Guid, t: EnemyType, maxHealth: real): CombatEvent
  {
    CombatEvent(EnemySpawned, id, map["EnemyType" := TypeCode(t), "MaxHealth" := maxHealth])
  }

  /** The angle an enemy keeps in its extra data, 0 when it has none. */
  function AngleOf(e: Enemy): real
  {
    if "Angle" in e.extraData then e.extraData["Angle"] else 0.0
  }

  /** The ids in a list. */
  function Ids(s: seq<Enemy>): set<Guid>
  {
    set e | e in s :: e.id
  }

  /** No two entries share an id. */
  predicate DistinctIds(s: seq<Enemy>)
  {
    forall i, j :: 0 <= i < j < |s| ==> s[i].id != s[j].id
  }

  /** Every entry's GUID lies below next, so a GUID issued from next on is new to the list. */
  predicate IdsBelow(s: seq<Enemy>, next: Guid)
  {
    forall i :: 0 <= i < |s| ==> s[i].id < next
  }

  /** Every entry has a GUID issued before next (and none the invalid 0), and no two share one. */
  predicate IssuedIds(s: seq<Enemy>, next: Guid)
  {
    next >= 1 && DistinctIds(s) && forall i :: 0 <= i < |s| ==> 1 <= s[i].id < next
  }

  /** The position of the first entry with the id, or -1 (INDEX_NONE). */
  function IndexOf(s: seq<Enemy>, id: Guid): (r: int)
    ensures -1 <= r < |s|
    ensures r >= 0 ==> s[r].id == id && forall i :: 0 <= i < r ==> s[i].id != id
    ensures r == -1 ==> forall i :: 0 <= i < |s| ==> s[i].id != id
    decreases |s|
  {
    if s == [] then -1
    else if s[0].id == id then 0
    else
      var k := IndexOf(s[1..], id);
      if k == -1 then -1 else k + 1
  }

  /** The search fails exactly when no entry carries the id. */
  lemma IndexOfIds(s: seq<Enemy>, id: Guid)
    ensures IndexOf(s, id) == -1 <==> id !in Ids(s)
  {
    var r := IndexOf(s, id);
    if r >= 0 {
      assert s[r] in s;
    } else {
      forall e | e in s
        ensures e.id != id
      {
        var i :| 0 <= i < |s| && s[i] == e;
      }
    }
  }

  /** Appending an entry under the next GUID keeps the GUIDs below, and issued and distinct, one GUID further on. */
  lemma AppendIssued(s: seq<Enemy>, x: Enemy, next: Guid)
    requires x.id == next
    ensures IdsBelow(s, next) ==> IdsBelow(s + [x], next + 1)
    ensures IssuedIds(s, next) ==> IssuedIds(s + [x], next + 1)
  {
    var r := s + [x];
    assert forall i :: 0 <= i < |s| ==> r[i] == s[i];
  }

  /** Taking one entry out of a list with issued, distinct GUIDs leaves them so, and its GUID is gone from the list. */
  lemma RemoveAtIssued(s: seq<Enemy>, k: int, next: Guid)
    requires IssuedIds(s, next) && 0 <= k < |s|
    ensures IssuedIds(s[..k] + s[k + 1..], next)
    ensures s[k].id !in Ids(s[..k] + s[k + 1..])
  {
    var r := s[..k] + s[k + 1..];
    assert forall i :: 0 <= i < |r| ==> r[i] == if i < k then s[i] else s[i + 1];
    forall e | e in r
      ensures e.id != s[k].id
    {
      var i :| 0 <= i < |r| && r[i] == e;
    }
  }

  /** The living entries, in their order. */
  function AliveOf(s: seq<Enemy>, alive: Enemy -> bool): (r: seq<Enemy>)
    ensures |r| <= |s|
    decreases |s|
  {
    if s == [] then []
    else
      var rest := AliveOf(s[1..], alive);
      if alive(s[0]) then [s[0]] + rest else rest
  }

  /** The filter keeps exactly the living entries: everything it keeps is a living entry, and every living entry is kept. */
  lemma {:induction false} AliveOfMembers(s: seq<Enemy>, alive: Enemy -> bool)
    ensures forall e :: e in AliveOf(s, alive) ==> e in s && alive(e)
    ensures forall e :: e in s && alive(e) ==> e in AliveOf(s, alive)
    decreases |s|
  {
    if s != [] {
      AliveOfMembers(s[1..], alive);
      assert forall e :: e in s <==> e == s[0] || e in s[1..];
    }
  }

  /** Filtering a concatenation filters each part. */
  lemma {:induction false} AliveOfAppend(a: seq<Enemy>, b: seq<Enemy>, alive: Enemy -> bool)
    ensures AliveOf(a + b, alive) == AliveOf(a, alive) + AliveOf(b, alive)
    decreases |a|
  {
    if a == [] {
      assert a + b == b;
    } else {
      assert (a + b)[0] == a[0];
      assert (a + b)[1..] == a[1..] + b;
      AliveOfAppend(a[1..], b, alive);
    }
  }

  /** Filtering twice is filtering once. */
  lemma {:induction false} AliveOfIdempotent(s: seq<Enemy>, alive: Enemy -> bool)
    ensures AliveOf(AliveOf(s, alive), alive) == AliveOf(s, alive)
    decreases |s|
  {
    if s != [] {
      AliveOfIdempotent(s[1..], alive);
      if alive(s[0]) {
        assert ([s[0]] + AliveOf(s[1..], alive))[1..] == AliveOf(s[1..], alive);
      }
    }
  }

  /** Filtering keeps ids apart and brings in no new id. */
  lemma {:induction false} AliveOfIds(s: seq<Enemy>, alive: Enemy -> bool)
    ensures Ids(AliveOf(s, alive)) <= Ids(s)
    ensures DistinctIds(s) ==> DistinctIds(AliveOf(s, alive))
    decreases |s|
  {
    if s != [] {
      AliveOfIds(s[1..], alive);
      AliveOfMembers(s[1..], alive);
      var rest := AliveOf(s[1..], alive);
      if DistinctIds(s) {
        assert DistinctIds(s[1..]) by {
          forall i, j | 0 <= i < j < |s[1..]|
            ensures s[1..][i].id != s[1..][j].id
          {
            assert s[1..][i] == s[i + 1] && s[1..][j] == s[j + 1];
          }
        }
        if alive(s[0]) {
          var r := [s[0]] + rest;
          assert s[0].id !in Ids(s[1..]);
          forall i, j | 0 <= i < j < |r|
            ensures r[i].id != r[j].id
          {
            if i == 0 {
              assert r[j] in rest;
            } else {
              assert r[i] == rest[i - 1] && r[j] == rest[j - 1];
            }
          }
        }
      }
    }
  }

  /**
   * Entry k is the nearest living entry to the point: alive, no living
   * entry nearer, and every living entry before it strictly farther.
   */
  ghost predicate IsNearest(s: seq<Enemy>, position: Vec3, alive: Enemy -> bool, k: int)
  {
    0 <= k < |s| && alive(s[k])
    && (forall j :: 0 <= j < |s| && alive(s[j]) ==>
          DistSquared(position, s[k].position) <= DistSquared(position, s[j].position))
    && (forall j :: 0 <= j < k && alive(s[j]) ==>
          DistSquared(position, s[k].position) < DistSquared(position, s[j].position))
  }

  /** The tie rule leaves no choice: at most one entry is the nearest. */
  lemma NearestUnique(s: seq<Enemy>, position: Vec3, alive: Enemy -> bool, k1: int, k2: int)
    requires IsNearest(s, position, alive, k1) && IsNearest(s, position, alive, k2)
    ensures k1 == k2
  {
  }
}

/** Translation of modifier keys and modifier masks through a table that the server can change. */
module Modifiers {

  // uint32_t
  type KeyID = k: int | 0 <= k < 0x1_0000_0000

  /** A bit mask, as the set of the bits that it has. */
  type Mask = set<nat>

  type ModifierID = nat

  const SHIFT_L: KeyID := 0xEFE1
  const SHIFT_R: KeyID := 0xEFE2
  const CONTROL_L: KeyID := 0xEFE3
  const CONTROL_R: KeyID := 0xEFE4
  const META_L: KeyID := 0xEFE7
  const META_R: KeyID := 0xEFE8
  const ALT_L: KeyID := 0xEFE9
  const ALT_R: KeyID := 0xEFEA
  const SUPER_L: KeyID := 0xEFEB
  const SUPER_R: KeyID := 0xEFEC
  const ALT_GR: KeyID := 0xEF7E
  const NO_KEY: KeyID := 0

  const BIT_SHIFT: nat := 0
  const BIT_CONTROL: nat := 1
  const BIT_ALT: nat := 2
  const BIT_META: nat := 3
  const BIT_SUPER: nat := 4
  const BIT_ALT_GR: nat := 5
  const BIT_LEVEL5_LOCK: nat := 6
  const BIT_CAPS_LOCK: nat := 12
  const BIT_NUM_LOCK: nat := 13
  const BIT_SCROLL_LOCK: nat := 14

  const ALL_MODIFIERS: Mask := {BIT_SHIFT, BIT_CONTROL, BIT_ALT, BIT_META, BIT_SUPER, BIT_ALT_GR}

  const ID_NULL: ModifierID := 0
  const ID_SHIFT: ModifierID := 1
  const ID_CONTROL: ModifierID := 2
  const ID_ALT: ModifierID := 3
  const ID_META: ModifierID := 4
  const ID_SUPER: ModifierID := 5
  const ID_ALT_GR: ModifierID := 6
  const ID_LAST: ModifierID := 7

  /** A modifier for each modifier, ID_NULL for none. */
  predicate IsTable(table: seq<ModifierID>) {
    |table| == ID_LAST && forall i :: 0 <= i < |table| ==> table[i] < ID_LAST
  }

  const IDENTITY: seq<ModifierID> := [0, 1, 2, 3, 4, 5, 6]

  /** The keys of each modifier, left and right. */
  const KEYS: seq<(KeyID, KeyID)> := [
    (NO_KEY, NO_KEY), (SHIFT_L, SHIFT_R), (CONTROL_L, CONTROL_R), (ALT_L, ALT_R),
    (META_L, META_R), (SUPER_L, SUPER_R), (ALT_GR, ALT_GR)]

  const MASKS: seq<Mask> :=
    [{}, {BIT_SHIFT}, {BIT_CONTROL}, {BIT_ALT}, {BIT_META}, {BIT_SUPER}, {BIT_ALT_GR}]

  // ---------- The program ----------

  function TranslateKey(table: seq<ModifierID>, id: KeyID): KeyID
    requires IsTable(table)
  {
    var (id2, right) :=
      if id == SHIFT_L then (ID_SHIFT, false)
      else if id == SHIFT_R then (ID_SHIFT, true)
      else if id == CONTROL_L then (ID_CONTROL, false)
      else if id == CONTROL_R then (ID_CONTROL, true)
      else if id == ALT_L then (ID_ALT, false)
      else if id == ALT_R then (ID_ALT, true)
      else if id == ALT_GR then (ID_ALT_GR, true)
      else if id == META_L then (ID_META, false)
      else if id == META_R then (ID_META, true)
      else if id == SUPER_L then (ID_SUPER, false)
      else if id == SUPER_R then (ID_SUPER, true)
      else (ID_NULL, false);
    if id2 == ID_NULL then id
    else if right then KEYS[table[id2]].1
    else KEYS[table[id2]].0
  }

  function Translated(mask: Mask, bit: nat, to: Mask): Mask {
    if bit in mask then to else {}
  }

  function TranslateMask(table: seq<ModifierID>, mask: Mask): Mask
    requires IsTable(table)
  {
    (mask - ALL_MODIFIERS)
    + Translated(mask, BIT_SHIFT, MASKS[table[ID_SHIFT]])
    + Translated(mask, BIT_CONTROL, MASKS[table[ID_CONTROL]])
    + Translated(mask, BIT_ALT, MASKS[table[ID_ALT]])
    + Translated(mask, BIT_ALT_GR, MASKS[table[ID_ALT_GR]])
    + Translated(mask, BIT_META, MASKS[table[ID_META]])
    + Translated(mask, BIT_SUPER, MASKS[table[ID_SUPER]])
  }

  /** Clears the bits that the protocol does not define: everything but the modifiers, Level5Lock and CapsLock. */
  function SanitizeMask(mask: Mask): Mask {
    mask * (ALL_MODIFIERS + {BIT_LEVEL5_LOCK, BIT_CAPS_LOCK})
  }

  /** The bits that KeyTypes.h declares. */
  const DECLARED: Mask :=
    ALL_MODIFIERS + {BIT_LEVEL5_LOCK, BIT_CAPS_LOCK, BIT_NUM_LOCK, BIT_SCROLL_LOCK}

  /** A mask of declared bits is kept exactly if it has neither NumLock nor ScrollLock, and of any mask the bits that are
      not declared are cleared. */
  lemma SanitizeKeeps(mask: Mask)
    ensures mask <= DECLARED ==>
      (SanitizeMask(mask) == mask <==> BIT_NUM_LOCK !in mask && BIT_SCROLL_LOCK !in mask)
    ensures SanitizeMask(mask) <= DECLARED && SanitizeMask(mask) <= mask
    ensures mask * DECLARED - SanitizeMask(mask) == mask * {BIT_NUM_LOCK, BIT_SCROLL_LOCK}
  {
    if SanitizeMask(mask) == mask {
      assert BIT_NUM_LOCK !in SanitizeMask(mask) && BIT_SCROLL_LOCK !in SanitizeMask(mask);
    }
  }

  /** NumLock is declared, and cleared. */
  lemma NumLockIsCleared()
    ensures {BIT_NUM_LOCK} <= DECLARED && SanitizeMask({BIT_NUM_LOCK}) == {}
  {
  }

  // ---------- Keys and masks agree ----------

  /** The modifier that a key belongs to. */
  function ModifierOf(key: KeyID): (m: ModifierID)
    ensures m < ID_LAST
  {
    if key == SHIFT_L || key == SHIFT_R then ID_SHIFT
    else if key == CONTROL_L || key == CONTROL_R then ID_CONTROL
    else if key == ALT_L || key == ALT_R then ID_ALT
    else if key == META_L || key == META_R then ID_META
    else if key == SUPER_L || key == SUPER_R then ID_SUPER
    else if key == ALT_GR then ID_ALT_GR
    else ID_NULL
  }

  /** The keys on the right; the only AltGr key is one of them. */
  predicate IsRight(key: KeyID) {
    key in {SHIFT_R, CONTROL_R, ALT_R, META_R, SUPER_R, ALT_GR}
  }

  /** A modifier key becomes a key of the modifier that the table holds for it, on the same side unless that is AltGr,
      which has one key only, and no key at all if the table holds none; other keys stay. */
  lemma KeyFollowsTable(table: seq<ModifierID>, key: KeyID)
    requires IsTable(table)
    ensures ModifierOf(key) == ID_NULL ==> TranslateKey(table, key) == key
    ensures ModifierOf(key) != ID_NULL ==> ModifierOf(TranslateKey(table, key)) == table[ModifierOf(key)]
    ensures ModifierOf(key) != ID_NULL && table[ModifierOf(key)] == ID_NULL ==> TranslateKey(table, key) == NO_KEY
    ensures ModifierOf(key) != ID_NULL && table[ModifierOf(key)] !in {ID_NULL, ID_ALT_GR} ==>
      (IsRight(TranslateKey(table, key)) <==> IsRight(key))
  {
    var m := table[ModifierOf(key)];
    assert ModifierOf(KEYS[m].0) == m && ModifierOf(KEYS[m].1) == m;
  }

  /** A single modifier bit becomes the bit of the modifier that the table holds for it. */
  lemma MaskFollowsTable(table: seq<ModifierID>, m: ModifierID)
    requires IsTable(table) && m < ID_LAST
    ensures TranslateMask(table, MASKS[m]) == if m == ID_NULL then {} else MASKS[table[m]]
  {
  }

  /** The mask bit of a translated modifier key is the translated mask bit of the key. */
  lemma MaskOfTranslatedKey(table: seq<ModifierID>, key: KeyID)
    requires IsTable(table) && ModifierOf(key) != ID_NULL
    ensures MASKS[ModifierOf(TranslateKey(table, key))] == TranslateMask(table, MASKS[ModifierOf(key)])
  {
    KeyFollowsTable(table, key);
    MaskFollowsTable(table, ModifierOf(key));
  }

  /** The bit of a modifier in a mask. */
  function BitOf(m: ModifierID): nat
    requires 0 < m
  {
    m - 1
  }

  lemma MaskIsBit(m: ModifierID, n: ModifierID)
    requires m < ID_LAST && 0 < n < ID_LAST
    ensures BitOf(n) in MASKS[m] <==> m == n
    ensures BitOf(n) in ALL_MODIFIERS
  {
  }

  /** A translated mask has a modifier exactly when some modifier of the mask is mapped to it. */
  lemma {:induction false} MaskExactly(table: seq<ModifierID>, mask: Mask, to: ModifierID)
    requires IsTable(table) && 0 < to < ID_LAST
    ensures BitOf(to) in TranslateMask(table, mask)
      <==> exists m :: 0 < m < ID_LAST && BitOf(m) in mask && table[m] == to
  {
    forall m | 0 < m < ID_LAST ensures BitOf(to) in MASKS[table[m]] <==> table[m] == to {
      MaskIsBit(table[m], to);
    }
    MaskIsBit(0, to);
    var bit := BitOf(to);
    assert bit in TranslateMask(table, mask) <==>
      || (BIT_SHIFT in mask && table[ID_SHIFT] == to) || (BIT_CONTROL in mask && table[ID_CONTROL] == to)
      || (BIT_ALT in mask && table[ID_ALT] == to) || (BIT_ALT_GR in mask && table[ID_ALT_GR] == to)
      || (BIT_META in mask && table[ID_META] == to) || (BIT_SUPER in mask && table[ID_SUPER] == to);
    assert forall m :: 0 < m < ID_LAST && table[m] == to ==>
      m == ID_SHIFT || m == ID_CONTROL || m == ID_ALT || m == ID_META || m == ID_SUPER || m == ID_ALT_GR;
  }

  /** Translating several modifiers together is translating them one by one. */
  lemma MaskDistributes(table: seq<ModifierID>, a: Mask, b: Mask)
    requires IsTable(table)
    ensures TranslateMask(table, a + b) == TranslateMask(table, a) + TranslateMask(table, b)
  {
  }

  /** Lock keys and whatever else is no modifier pass through. */
  lemma MaskKeepsOthers(table: seq<ModifierID>, mask: Mask)
    requires IsTable(table)
    ensures TranslateMask(table, mask) - ALL_MODIFIERS == mask - ALL_MODIFIERS
  {
  }

  lemma IdentityTranslatesNothing(key: KeyID, mask: Mask)
    ensures IsTable(IDENTITY) && TranslateKey(IDENTITY, key) == key && TranslateMask(IDENTITY, mask) == mask
  {
  }

  // ---------- Options ----------

  // uint32_t
  type Word = w: int | 0 <= w < 0x1_0000_0000

  const MAP_SHIFT: Word := 0x4d4d4653
  const MAP_CONTROL: Word := 0x4d4d4643
  const MAP_ALT: Word := 0x4d4d4641
  const MAP_ALT_GR: Word := 0x4d4d4647
  const MAP_META: Word := 0x4d4d464d
  const MAP_SUPER: Word := 0x4d4d4652

  /** The modifier whose mapping an option changes. */
  function OptionModifier(option: Word): (m: ModifierID)
    ensures m < ID_LAST
  {
    if option == MAP_SHIFT then ID_SHIFT
    else if option == MAP_CONTROL then ID_CONTROL
    else if option == MAP_ALT then ID_ALT
    else if option == MAP_ALT_GR then ID_ALT_GR
    else if option == MAP_META then ID_META
    else if option == MAP_SUPER then ID_SUPER
    else ID_NULL
  }

  function Clamped(value: Word): ModifierID {
    if value > ID_LAST - 1 then ID_LAST - 1 else value
  }

  /** Place `k` of the options sets the mapping of the modifier `m`. */
  predicate Sets(options: seq<Word>, k: nat, m: ModifierID) {
    2 * k + 1 < |options| && m != ID_NULL && OptionModifier(options[2 * k]) == m
  }

  /** The table that a list of options makes of another one: for each modifier the last pair that sets it counts. */
  ghost predicate TableAfter(table: seq<ModifierID>, options: seq<Word>, table': seq<ModifierID>) {
    && |table'| == |table|
    && forall m {:trigger table'[m]} :: 0 <= m < |table| ==>
      || (table'[m] == table[m] && forall k :: !Sets(options, k, m))
      || (exists k :: Sets(options, k, m) && table'[m] == Clamped(options[2 * k + 1])
                      && forall k' :: k < k' ==> !Sets(options, k', m))
  }

  /** What one pair does to the table. */
  function AfterPair(table: seq<ModifierID>, option: Word, value: Word): (r: seq<ModifierID>)
    requires IsTable(table)
    ensures IsTable(r)
  {
    if OptionModifier(option) == ID_NULL then table else table[OptionModifier(option) := Clamped(value)]
  }

  /** The table after a list of options, pair by pair; an odd value at the end sets nothing. */
  function AfterOptions(table: seq<ModifierID>, options: seq<Word>): (r: seq<ModifierID>)
    requires IsTable(table)
    ensures IsTable(r)
    decreases |options|
  {
    var n := |options| / 2 * 2;
    if n == 0 then table
    else AfterPair(AfterOptions(table, options[..n - 2]), options[n - 2], options[n - 1])
  }

  lemma LastPair(table: seq<ModifierID>, options: seq<Word>)
    requires IsTable(table) && |options| % 2 == 0 && options != []
    ensures
      var n := |options| - 2;
      n % 2 == 0 && AfterOptions(table, options) == AfterPair(AfterOptions(table, options[..n]), options[n], options[n + 1])
  {
    hide AfterPair, IsTable;
    assert |options| / 2 * 2 == |options|;
  }

  /** Working through one list and then another is working through both, if both have even lengths. */
  lemma {:induction false} AfterBoth(table: seq<ModifierID>, a: seq<Word>, b: seq<Word>)
    requires IsTable(table) && |a| % 2 == 0 && |b| % 2 == 0
    ensures |a + b| % 2 == 0 && AfterOptions(table, a + b) == AfterOptions(AfterOptions(table, a), b)
    decreases |b|
  {
    if b == [] {
      assert a + b == a;
    } else {
      hide *;
      LastPair(AfterOptions(table, a), b);
      AfterBoth(table, a, b[..|b| - 2]);
      assert |a + b| == |a + b[..|b| - 2]| + 2;
      LastPair(table, a + b);
      Ends(a, b);
    }
  }

  lemma Ends(a: seq<Word>, b: seq<Word>)
    requires |b| >= 2
    ensures (a + b)[..|a + b| - 2] == a + b[..|b| - 2]
    ensures (a + b)[|a + b| - 2] == b[|b| - 2] && (a + b)[|a + b| - 1] == b[|b| - 1]
  {
  }

  /** Pair by pair, it is the last pair for a modifier that counts; the place of no modifier never changes. */
  lemma {:induction false} LastPairCounts(table: seq<ModifierID>, options: seq<Word>)
    requires IsTable(table) && |options| % 2 == 0
    ensures TableAfter(table, options, AfterOptions(table, options))
    ensures AfterOptions(table, options)[ID_NULL] == table[ID_NULL]
    decreases |options|
  {
    if options != [] {
      var i := |options| - 2;
      LastPairCounts(table, options[..i]);
      TableAfterOneMore(table, options, i, AfterOptions(table, options[..i]), OptionModifier(options[i]));
      assert options[..i + 2] == options;
    }
  }

  /** A list of options leaves no choice. */
  lemma TableAfterUnique(table: seq<ModifierID>, options: seq<Word>, t: seq<ModifierID>, u: seq<ModifierID>)
    requires TableAfter(table, options, t) && TableAfter(table, options, u)
    ensures t == u
  {
    forall m | 0 <= m < |table| ensures t[m] == u[m] {
      if k :| Sets(options, k, m) && t[m] == Clamped(options[2 * k + 1]) && forall k' :: k < k' ==> !Sets(options, k', m) {
        if j :| Sets(options, j, m) && u[m] == Clamped(options[2 * j + 1]) && forall k' :: j < k' ==> !Sets(options, k', m) {
          assert !(k < j) && !(j < k);
        }
      }
    }
  }

  /** One more pair changes the place of its modifier, if it names one. */
  lemma TableAfterOneMore(table: seq<ModifierID>, options: seq<Word>, i: nat, table': seq<ModifierID>, id: ModifierID)
    requires IsTable(table') && i % 2 == 0 && i + 1 < |options| && id == OptionModifier(options[i])
    requires TableAfter(table, options[..i], table')
    ensures id == ID_NULL ==> TableAfter(table, options[..i + 2], table')
    ensures id != ID_NULL ==> TableAfter(table, options[..i + 2], table'[id := Clamped(options[i + 1])])
  {
    var less, more := options[..i], options[..i + 2];
    var k0 := i / 2;
    assert forall k: nat, m :: k != k0 ==> (Sets(more, k, m) <==> Sets(less, k, m));
    assert forall m :: Sets(more, k0, m) <==> m != ID_NULL && m == id;
    assert forall k: nat, m :: Sets(less, k, m) ==> k < k0;
    var after := if id == ID_NULL then table' else table'[id := Clamped(options[i + 1])];
    forall m {:trigger after[m]} | 0 <= m < |table|
      ensures (after[m] == table[m] && forall k :: !Sets(more, k, m))
        || (exists k :: Sets(more, k, m) && after[m] == Clamped(more[2 * k + 1])
                        && forall k' :: k < k' ==> !Sets(more, k', m))
    {
      if m == id && id != ID_NULL {
        assert Sets(more, k0, m) && after[m] == Clamped(more[2 * k0 + 1]);
      } else if k :| Sets(less, k, m) && table'[m] == Clamped(less[2 * k + 1])
                     && forall k' :: k < k' ==> !Sets(less, k', m) {
        assert Sets(more, k, m);
      } else {
        assert table'[m] == table[m] && forall k :: !Sets(less, k, m);
      }
    }
  }
}

/** `scripts/sync-ekranchik.py`: the catalogue is compared with the profiles of Ekranchik, the drift is
    applied, and the comparison is made again. */
module CatalogueSync {
  import opened Text
  import opened Values

  /** A name in canonical form. */
  datatype Code = Code(text: string)

  datatype Length = Length(length: Mm, primary: bool, raw: Option<Mm>)

  datatype Norm = Norm(auto: Option<int>, manual: Option<int>)

  datatype Product = Product(sku: Name, manual: bool, norms: map<Mm, Norm>, aliases: seq<Name>, lengths: seq<Length>)

  datatype Profile = Profile(id: int, name: Name, n: Option<int>, length: Option<Mm>)

  datatype Drift =
    | Missing(id: int)
    | LengthDrift(id: int, was: Option<Mm>, target: Mm)
    | NormDrift(id: int, seen: Option<int>, norm: int)

  datatype Skip = NoLengths(id: int) | NoNorm(id: int)

  // ----- lengths and norms of one product

  /** The value of the mode, or else the other one. */
  function EffectiveN(product: Product, length: Mm): Option<int> {
    if length !in product.norms then None
    else
      var entry := product.norms[length];
      var first, second := if product.manual then entry.manual else entry.auto,
                           if product.manual then entry.auto else entry.manual;
      if first.Some? then first else second
  }

  function EffRaw(l: Length): Mm {
    if l.raw.Some? then l.raw.value else l.length
  }

  predicate Near(a: Mm, b: Mm) {
    -1.0 <= a.value - b.value <= 1.0
  }

  function FirstNormal(lengths: seq<Length>, current: Mm): Option<Length> {
    if lengths == [] then None
    else if Near(lengths[0].length, current) then Some(lengths[0])
    else FirstNormal(lengths[1..], current)
  }

  function FirstRaw(lengths: seq<Length>, current: Mm): Option<Length> {
    if lengths == [] then None
    else if Near(EffRaw(lengths[0]), current) then Some(lengths[0])
    else FirstRaw(lengths[1..], current)
  }

  function MatchLength(lengths: seq<Length>, current: Option<Mm>): Option<Length> {
    if current.None? then None
    else if FirstNormal(lengths, current.value).Some? then FirstNormal(lengths, current.value)
    else FirstRaw(lengths, current.value)
  }

  function Primaries(lengths: seq<Length>): seq<Length> {
    if lengths == [] then []
    else (if lengths[0].primary then [lengths[0]] else []) + Primaries(lengths[1..])
  }

  /** The first of the smallest lengths. */
  function Smallest(lengths: seq<Length>): Length
    requires lengths != []
  {
    var n := |lengths| - 1;
    if n == 0 then lengths[0]
    else
      var front := Smallest(lengths[..n]);
      if lengths[n].length.value < front.length.value then lengths[n] else front
  }

  function MainLength(lengths: seq<Length>): Length
    requires lengths != []
  {
    if |Primaries(lengths)| == 1 then Primaries(lengths)[0]
    else if |lengths| == 1 then lengths[0]
    else Smallest(lengths)
  }

  /** The first of the lengths that is within a millimetre. */
  ghost predicate IsFirstNear(lengths: seq<Length>, item: Length, current: Mm) {
    exists k :: 0 <= k < |lengths| && lengths[k] == item && Near(lengths[k].length, current)
                && forall j :: 0 <= j < k ==> !Near(lengths[j].length, current)
  }

  ghost predicate IsFirstRawNear(lengths: seq<Length>, item: Length, current: Mm) {
    exists k :: 0 <= k < |lengths| && lengths[k] == item && Near(EffRaw(lengths[k]), current)
                && forall j :: 0 <= j < k ==> !Near(EffRaw(lengths[j]), current)
  }

  lemma {:induction false} FirstNormalAt(lengths: seq<Length>, current: Mm)
    ensures match FirstNormal(lengths, current)
            case None => forall l :: l in lengths ==> !Near(l.length, current)
            case Some(item) => IsFirstNear(lengths, item, current)
  {
    if lengths != [] {
      FirstNormalAt(lengths[1..], current);
      if !Near(lengths[0].length, current) && FirstNormal(lengths, current).Some? {
        var item := FirstNormal(lengths, current).value;
        var k :| 0 <= k < |lengths| - 1 && lengths[1..][k] == item && Near(lengths[1..][k].length, current)
                 && forall j :: 0 <= j < k ==> !Near(lengths[1..][j].length, current);
        assert lengths[k + 1] == item;
        assert forall j :: 0 < j < k + 1 ==> lengths[j] == lengths[1..][j - 1];
      }
    }
  }

  lemma {:induction false} FirstRawAt(lengths: seq<Length>, current: Mm)
    ensures match FirstRaw(lengths, current)
            case None => forall l :: l in lengths ==> !Near(EffRaw(l), current)
            case Some(item) => IsFirstRawNear(lengths, item, current)
  {
    if lengths != [] {
      FirstRawAt(lengths[1..], current);
      if !Near(EffRaw(lengths[0]), current) && FirstRaw(lengths, current).Some? {
        var item := FirstRaw(lengths, current).value;
        var k :| 0 <= k < |lengths| - 1 && lengths[1..][k] == item && Near(EffRaw(lengths[1..][k]), current)
                 && forall j :: 0 <= j < k ==> !Near(EffRaw(lengths[1..][j]), current);
        assert lengths[k + 1] == item;
        assert forall j :: 0 < j < k + 1 ==> lengths[j] == lengths[1..][j - 1];
      }
    }
  }

  /** No match means nothing within a millimetre; the first normal length wins, and only when no normal
      length is near the first raw one does. */
  lemma MatchLengthIff(lengths: seq<Length>, current: Mm)
    ensures MatchLength(lengths, Some(current)).None? <==>
              forall l :: l in lengths ==> !Near(l.length, current) && !Near(EffRaw(l), current)
    ensures match MatchLength(lengths, Some(current))
            case None => true
            case Some(item) =>
              || IsFirstNear(lengths, item, current)
              || (IsFirstRawNear(lengths, item, current) && forall l :: l in lengths ==> !Near(l.length, current))
  {
    FirstNormalAt(lengths, current);
    FirstRawAt(lengths, current);
  }

  lemma {:induction false} PrimariesAre(lengths: seq<Length>)
    ensures forall l :: l in Primaries(lengths) <==> l in lengths && l.primary
  {
    if lengths != [] {
      PrimariesAre(lengths[1..]);
      assert forall l :: l in lengths <==> l == lengths[0] || l in lengths[1..];
    }
  }

  ghost predicate IsSmallest(lengths: seq<Length>, k: int) {
    && 0 <= k < |lengths|
    && (forall j :: 0 <= j < k ==> lengths[k].length.value < lengths[j].length.value)
    && (forall j :: k <= j < |lengths| ==> lengths[k].length.value <= lengths[j].length.value)
  }

  ghost predicate IsFirstSmallest(lengths: seq<Length>, item: Length) {
    exists k :: IsSmallest(lengths, k) && lengths[k] == item
  }

  lemma {:induction false} SmallestAt(lengths: seq<Length>) returns (k: int)
    requires lengths != []
    ensures IsSmallest(lengths, k) && lengths[k] == Smallest(lengths)
  {
    var n := |lengths| - 1;
    if n == 0 {
      k := 0;
    } else {
      k := SmallestAt(lengths[..n]);
      assert forall j :: 0 <= j < n ==> lengths[..n][j] == lengths[j];
      if lengths[n].length.value < lengths[k].length.value { k := n; }
    }
  }

  /** The main length is the one primary length, or else the first of the smallest. */
  lemma MainLengthIs(lengths: seq<Length>)
    requires lengths != []
    ensures MainLength(lengths) in lengths
    ensures if |Primaries(lengths)| == 1 then MainLength(lengths).primary
        else IsFirstSmallest(lengths, MainLength(lengths))
  {
    if |Primaries(lengths)| == 1 {
      PrimariesAre(lengths);
      assert Primaries(lengths)[0] in Primaries(lengths);
    } else {
      var k := SmallestAt(lengths);
    }
  }

  // ----- the same, field by field

  /** The norm of the product's mode, or else the one of the other mode, or none. */
  lemma EffectiveNIs(product: Product, length: Mm, norm: Norm)
    ensures length !in product.norms ==> EffectiveN(product, length) == None
    ensures length in product.norms && product.norms[length] == norm ==>
              EffectiveN(product, length) ==
                match (product.manual, norm)
                case (true, Norm(auto, Some(n))) => Some(n)
                case (true, Norm(auto, None)) => auto
                case (false, Norm(Some(n), manual)) => Some(n)
                case (false, Norm(None, manual)) => manual
  {
  }

  /** Within a millimetre. */
  lemma NearIff(a: Mm, b: Mm)
    ensures Near(a, b) <==> a.value <= b.value + 1.0 && b.value <= a.value + 1.0
  {
  }

  /** A length without a raw length is its own. */
  lemma EffRawIs(length: Mm, primary: bool, raw: Mm)
    ensures EffRaw(Length(length, primary, Some(raw))) == raw && EffRaw(Length(length, primary, None)) == length
  {
  }

  lemma {:induction false} PrimaryIn(lengths: seq<Length>, k: nat)
    requires k < |lengths| && lengths[k].primary
    ensures |Primaries(lengths)| >= 1
    ensures (forall j :: 0 <= j < |lengths| && j != k ==> !lengths[j].primary) ==> Primaries(lengths) == [lengths[k]]
    ensures forall j :: k < j < |lengths| && lengths[j].primary ==> |Primaries(lengths)| >= 2
  {
    var rest := lengths[1..];
    assert forall j :: 0 < j < |lengths| ==> lengths[j] == rest[j - 1];
    if k > 0 {
      PrimaryIn(rest, k - 1);
    } else {
      NoPrimary(rest);
      if j :| 0 < j < |lengths| && lengths[j].primary { PrimaryIn(rest, j - 1); }
    }
  }

  lemma {:induction false} NoPrimary(lengths: seq<Length>)
    ensures Primaries(lengths) == [] <==> forall j :: 0 <= j < |lengths| ==> !lengths[j].primary
  {
    if lengths != [] {
      NoPrimary(lengths[1..]);
      assert forall j :: 0 < j < |lengths| ==> lengths[j] == lengths[1..][j - 1];
    }
  }

  ghost predicate OnlyPrimary(lengths: seq<Length>, k: int) {
    && 0 <= k < |lengths| && lengths[k].primary
    && forall j :: 0 <= j < |lengths| && j != k ==> !lengths[j].primary
  }

  /** The main length: the only primary one, and the first of the smallest if there is none or several. */
  lemma MainLengthByPosition(lengths: seq<Length>)
    requires lengths != []
    ensures forall k :: OnlyPrimary(lengths, k) ==> MainLength(lengths) == lengths[k]
    ensures (forall k :: !OnlyPrimary(lengths, k)) ==> IsFirstSmallest(lengths, MainLength(lengths))
  {
    MainLengthIs(lengths);
    forall k | OnlyPrimary(lengths, k) ensures Primaries(lengths) == [lengths[k]] { PrimaryIn(lengths, k); }
    if forall k :: !OnlyPrimary(lengths, k) {
      NoPrimary(lengths);
      if k :| 0 <= k < |lengths| && lengths[k].primary {
        assert !OnlyPrimary(lengths, k);
        var j :| 0 <= j < |lengths| && j != k && lengths[j].primary;
        PrimaryIn(lengths, if j < k then j else k);
      }
    }
  }

  // ----- drift of one profile

  /** `int(n or -1)`: an unknown norm and the norm zero look alike. */
  function Seen(n: Option<int>): int {
    if n.None? || n.value == 0 then -1 else n.value
  }

  function Resolved(product: Product, profile: Profile): Length
    requires product.lengths != []
  {
    match MatchLength(product.lengths, profile.length)
    case Some(item) => item
    case None => MainLength(product.lengths)
  }

  function TargetNorm(product: Product, profile: Profile): Option<int>
    requires product.lengths != []
  {
    EffectiveN(product, Resolved(product, profile).length)
  }

  /** The length to write, if the profile's length is not one of the catalogue. */
  function NewLength(product: Product, profile: Profile): Option<Mm>
    requires product.lengths != []
  {
    if MatchLength(product.lengths, profile.length).Some? then None else Some(MainLength(product.lengths).length)
  }

  /** The norm to write, if the catalogue has another one. */
  function NewNorm(product: Product, profile: Profile): Option<int>
    requires product.lengths != []
  {
    match TargetNorm(product, profile)
    case None => None
    case Some(norm) => if Seen(profile.n) == norm then None else Some(norm)
  }

  function Entries(profile: Profile, length: Option<Mm>, norm: Option<int>): seq<Drift> {
    (if length.Some? then [LengthDrift(profile.id, profile.length, length.value)] else []) +
    (if norm.Some? then [NormDrift(profile.id, profile.n, norm.value)] else [])
  }

  function ProfileDrift(found: Option<Product>, profile: Profile): seq<Drift> {
    if found.None? then [Missing(profile.id)]
    else if found.value.lengths == [] then []
    else Entries(profile, NewLength(found.value, profile), NewNorm(found.value, profile))
  }

  function ProfileSkips(found: Option<Product>, profile: Profile): seq<Skip> {
    if found.None? then []
    else if found.value.lengths == [] then [NoLengths(profile.id)]
    else if TargetNorm(found.value, profile).None? && profile.n.Some? then [NoNorm(profile.id)]
    else []
  }

  // ----- drift, field by field

  /** The length compared against: the one that matches, and otherwise the main one; what is to be written. */
  lemma LengthsAre(product: Product, profile: Profile, matched: Option<Length>)
    requires product.lengths != [] && MatchLength(product.lengths, profile.length) == matched
    ensures matched == None ==>
              && Resolved(product, profile) == MainLength(product.lengths)
              && NewLength(product, profile) == Some(MainLength(product.lengths).length)
    ensures matched.Some? ==> Resolved(product, profile) == matched.value && NewLength(product, profile) == None
    ensures profile.length == None ==> matched == None
    ensures TargetNorm(product, profile) == EffectiveN(product, Resolved(product, profile).length)
  {
  }

  /** The norm is written if the catalogue has one and the profile has another one; a profile without a norm,
      or with the norm zero, has the norm -1 for this. */
  lemma NormIsWritten(product: Product, profile: Profile, norm: int)
    requires product.lengths != []
    ensures TargetNorm(product, profile) == None ==> NewNorm(product, profile) == None
    ensures TargetNorm(product, profile) == Some(norm) && norm != 0 && norm != -1 ==>
              NewNorm(product, profile) == if profile.n == Some(norm) then None else Some(norm)
    ensures TargetNorm(product, profile) == Some(0) ==> NewNorm(product, profile) == Some(0)
    ensures TargetNorm(product, profile) == Some(-1) ==>
              NewNorm(product, profile) ==
                if profile.n == Some(-1) || profile.n == Some(0) || profile.n == None then None else Some(-1)
  {
  }

  /** The entries of one profile, and what is skipped. */
  lemma DriftIs(product: Product, profile: Profile, d: Drift, s: Skip)
    ensures d in ProfileDrift(None, profile) <==> d == Missing(profile.id)
    ensures product.lengths == [] ==>
              && ProfileDrift(Some(product), profile) == []
              && (s in ProfileSkips(Some(product), profile) <==> s == NoLengths(profile.id))
    ensures product.lengths != [] ==>
              && (d in ProfileDrift(Some(product), profile) <==>
                    match d
                    case Missing(_) => false
                    case LengthDrift(id, was, target) =>
                      id == profile.id && was == profile.length && NewLength(product, profile) == Some(target)
                    case NormDrift(id, seen, norm) =>
                      id == profile.id && seen == profile.n && NewNorm(product, profile) == Some(norm))
              && (s in ProfileSkips(Some(product), profile) <==>
                    s == NoNorm(profile.id) && TargetNorm(product, profile) == None && profile.n != None)
    ensures ProfileSkips(None, profile) == []
  {
  }

  // ----- applying the drift

  function UpdateRow(profile: Profile, d: Drift): Profile {
    if profile.id != d.id then profile
    else match d
      case Missing(_) => profile
      case LengthDrift(_, _, target) => profile.(length := Some(target))
      case NormDrift(_, _, norm) => profile.(n := Some(norm))
  }

  function UpdateRows(profiles: seq<Profile>, d: Drift): seq<Profile> {
    seq(|profiles|, i requires 0 <= i < |profiles| => UpdateRow(profiles[i], d))
  }

  function Applied(profiles: seq<Profile>, drift: seq<Drift>): seq<Profile> {
    if drift == [] then profiles
    else UpdateRows(Applied(profiles, drift[..|drift| - 1]), drift[|drift| - 1])
  }

  function AppliedRow(profile: Profile, drift: seq<Drift>): Profile {
    if drift == [] then profile
    else UpdateRow(AppliedRow(profile, drift[..|drift| - 1]), drift[|drift| - 1])
  }

  function Written(profile: Profile, length: Option<Mm>, norm: Option<int>): Profile {
    Profile(profile.id, profile.name,
            if norm.Some? then norm else profile.n,
            if length.Some? then length else profile.length)
  }

  /** What one profile becomes. */
  function Settled(found: Option<Product>, profile: Profile): Profile {
    if found.None? || found.value.lengths == [] then profile
    else Written(profile, NewLength(found.value, profile), NewNorm(found.value, profile))
  }

  /** Name and id stay; length and norm are the written ones, or stay. */
  lemma SettledIs(product: Product, profile: Profile)
    ensures Settled(None, profile) == profile
    ensures product.lengths == [] ==> Settled(Some(product), profile) == profile
    ensures product.lengths != [] ==>
              var after := Settled(Some(product), profile);
              && after.id == profile.id && after.name == profile.name
              && after.length ==
                   (match NewLength(product, profile) case None => profile.length case Some(mm) => Some(mm))
              && after.n == (match NewNorm(product, profile) case None => profile.n case Some(n) => Some(n))
  {
  }

  lemma {:induction false} AppliedAt(profiles: seq<Profile>, drift: seq<Drift>, i: nat)
    requires i < |profiles|
    ensures |Applied(profiles, drift)| == |profiles| && Applied(profiles, drift)[i] == AppliedRow(profiles[i], drift)
  {
    if drift != [] { AppliedAt(profiles, drift[..|drift| - 1], i); }
  }

  lemma {:induction false} AppliedConcat(profile: Profile, a: seq<Drift>, b: seq<Drift>)
    ensures AppliedRow(profile, a + b) == AppliedRow(AppliedRow(profile, a), b)
  {
    if b == [] {
      assert a + b == a;
    } else {
      AppliedConcat(profile, a, b[..|b| - 1]);
      assert (a + b)[..|a + b| - 1] == a + b[..|b| - 1];
    }
  }

  lemma {:induction false} OthersDoNotTouch(profile: Profile, drift: seq<Drift>)
    requires forall d :: d in drift ==> d.id != profile.id
    ensures AppliedRow(profile, drift) == profile
  {
    if drift != [] { OthersDoNotTouch(profile, drift[..|drift| - 1]); }
  }

  lemma EntriesWrite(profile: Profile, length: Option<Mm>, norm: Option<int>)
    ensures AppliedRow(profile, Entries(profile, length, norm)) == Written(profile, length, norm)
    ensures forall d :: d in Entries(profile, length, norm) ==> d.id == profile.id
  {
    if length.Some? && norm.Some? {
      AppliedConcat(profile, [LengthDrift(profile.id, profile.length, length.value)],
          [NormDrift(profile.id, profile.n, norm.value)]);
    }
  }

  lemma OwnDriftSettles(found: Option<Product>, profile: Profile)
    ensures AppliedRow(profile, ProfileDrift(found, profile)) == Settled(found, profile)
    ensures forall d :: d in ProfileDrift(found, profile) ==> d.id == profile.id
  {
    if found.None? {
      assert ProfileDrift(found, profile)[..0] == [];
    } else if found.value.lengths != [] {
      EntriesWrite(profile, NewLength(found.value, profile), NewNorm(found.value, profile));
    }
  }

  // ----- the catalogue index

  datatype Catalogue = Catalogue(canon: Name -> Code, products: seq<Product>)

  /** Of products with one code the last counts. */
  ghost function BySku(canon: Name -> Code, products: seq<Product>, key: Code): Option<Product> {
    if products == [] then None
    else if canon(products[|products| - 1].sku) == key then Some(products[|products| - 1])
    else BySku(canon, products[..|products| - 1], key)
  }

  ghost predicate HasAlias(canon: Name -> Code, aliases: seq<Name>, key: Code) {
    exists a :: 0 <= a < |aliases| && canon(aliases[a]) == key
  }

  /** Of products with one alias the first counts. */
  ghost function ByAlias(canon: Name -> Code, products: seq<Product>, key: Code): Option<Product> {
    if products == [] then None
    else
      var front, last := products[..|products| - 1], products[|products| - 1];
      OrAlias(canon, ByAlias(canon, front, key), last, last.aliases, key)
  }

  ghost function OrAlias(
    canon: Name -> Code, found: Option<Product>, product: Product, aliases: seq<Name>, key: Code): Option<Product>
  {
    if found.Some? then found
    else if HasAlias(canon, aliases, key) then Some(product)
    else None
  }

  ghost function Find(cat: Catalogue, name: Name): Option<Product> {
    var key := cat.canon(name);
    if BySku(cat.canon, cat.products, key).Some? then BySku(cat.canon, cat.products, key)
    else ByAlias(cat.canon, cat.products, key)
  }

  ghost predicate LastWithCode(canon: Name -> Code, products: seq<Product>, key: Code, k: int) {
    && 0 <= k < |products| && canon(products[k].sku) == key
    && forall j :: k < j < |products| ==> canon(products[j].sku) != key
  }

  ghost predicate FirstWithAlias(canon: Name -> Code, products: seq<Product>, key: Code, k: int) {
    && 0 <= k < |products| && HasAlias(canon, products[k].aliases, key)
    && forall j :: 0 <= j < k ==> !HasAlias(canon, products[j].aliases, key)
  }

  lemma {:induction false} BySkuAt(canon: Name -> Code, products: seq<Product>, key: Code, k: nat)
    requires LastWithCode(canon, products, key, k)
    ensures BySku(canon, products, key) == Some(products[k])
  {
    if k < |products| - 1 { BySkuAt(canon, products[..|products| - 1], key, k); }
  }

  lemma {:induction false} NoSku(canon: Name -> Code, products: seq<Product>, key: Code)
    requires forall k :: 0 <= k < |products| ==> canon(products[k].sku) != key
    ensures BySku(canon, products, key) == None
  {
    if products != [] { NoSku(canon, products[..|products| - 1], key); }
  }

  lemma {:induction false} ByAliasAt(canon: Name -> Code, products: seq<Product>, key: Code, k: nat)
    requires FirstWithAlias(canon, products, key, k)
    ensures ByAlias(canon, products, key) == Some(products[k])
  {
    var front := products[..|products| - 1];
    if k < |front| { ByAliasAt(canon, front, key, k); } else { NoAlias(canon, front, key); }
  }

  lemma {:induction false} NoAlias(canon: Name -> Code, products: seq<Product>, key: Code)
    requires forall k :: 0 <= k < |products| ==> !HasAlias(canon, products[k].aliases, key)
    ensures ByAlias(canon, products, key) == None
  {
    if products != [] { NoAlias(canon, products[..|products| - 1], key); }
  }

  /** Which product a name stands for: the last one with that code, and otherwise the first with that alias. */
  lemma FindIs(cat: Catalogue, name: Name, k: nat)
    ensures LastWithCode(cat.canon, cat.products, cat.canon(name), k) ==> Find(cat, name) == Some(cat.products[k])
    ensures (forall j :: 0 <= j < |cat.products| ==> cat.canon(cat.products[j].sku) != cat.canon(name)) ==>
              FirstWithAlias(cat.canon, cat.products, cat.canon(name), k) ==>
                Find(cat, name) == Some(cat.products[k])
    ensures (forall j :: 0 <= j < |cat.products| ==>
               cat.canon(cat.products[j].sku) != cat.canon(name) &&
               !HasAlias(cat.canon, cat.products[j].aliases, cat.canon(name))) ==>
              Find(cat, name) == None
  {
    var canon, products, key := cat.canon, cat.products, cat.canon(name);
    if LastWithCode(canon, products, key, k) { BySkuAt(canon, products, key, k); }
    if forall j :: 0 <= j < |products| ==> canon(products[j].sku) != key {
      NoSku(canon, products, key);
      if FirstWithAlias(canon, products, key, k) { ByAliasAt(canon, products, key, k); }
      if forall j :: 0 <= j < |products| ==> !HasAlias(canon, products[j].aliases, key) {
        NoAlias(canon, products, key);
      }
    }
  }

  function Get(index: map<Code, Product>, key: Code): Option<Product> {
    if key in index then Some(index[key]) else None
  }

  method BuildIndex(cat: Catalogue) returns (bySku: map<Code, Product>, byAlias: map<Code, Product>)
    ensures forall key :: Get(bySku, key) == BySku(cat.canon, cat.products, key)
    ensures forall key :: Get(byAlias, key) == ByAlias(cat.canon, cat.products, key)
  {
    var products := cat.products;
    bySku, byAlias := map[], map[];
    for i := 0 to |products|
      invariant forall key :: Get(bySku, key) == BySku(cat.canon, products[..i], key)
    {
      assert products[..i + 1][..i] == products[..i];
      bySku := bySku[cat.canon(products[i].sku) := products[i]];
    }
    for i := 0 to |products|
      invariant forall key :: Get(byAlias, key) == ByAlias(cat.canon, products[..i], key)
    {
      assert products[..i + 1][..i] == products[..i];
      byAlias := AddAliases(cat.canon, byAlias, products[i]);
    }
    assert products[..|products|] == products;
  }

  method AddAliases(canon: Name -> Code, before: map<Code, Product>, product: Product)
    returns (index: map<Code, Product>)
    ensures forall key :: Get(index, key) == OrAlias(canon, Get(before, key), product, product.aliases, key)
  {
    var aliases := product.aliases;
    index := before;
    for j := 0 to |aliases|
      invariant forall key :: Get(index, key) == OrAlias(canon, Get(before, key), product, aliases[..j], key)
    {
      var code := canon(aliases[j]);
      forall key ensures HasAlias(canon, aliases[..j + 1], key) <==> HasAlias(canon, aliases[..j], key) || key == code {
        OneMoreAlias(canon, aliases, j, key);
      }
      if code !in index { index := index[code := product]; }
    }
    assert aliases[..|aliases|] == aliases;
  }

  lemma OneMoreAlias(canon: Name -> Code, aliases: seq<Name>, j: nat, key: Code)
    requires j < |aliases|
    ensures HasAlias(canon, aliases[..j + 1], key) <==> HasAlias(canon, aliases[..j], key) || key == canon(aliases[j])
  {
    var front, all := aliases[..j], aliases[..j + 1];
    assert all[j] == aliases[j];
    if HasAlias(canon, front, key) {
      var a :| 0 <= a < |front| && canon(front[a]) == key;
      assert all[a] == front[a];
    }
    if HasAlias(canon, all, key) {
      var a :| 0 <= a < |all| && canon(all[a]) == key;
      assert a < j ==> front[a] == all[a];
    }
  }

  // ----- the whole table

  function Flatten<T>(lists: seq<seq<T>>): seq<T> {
    if lists == [] then [] else Flatten(lists[..|lists| - 1]) + lists[|lists| - 1]
  }

  lemma FlattenOneMore<T>(lists: seq<seq<T>>, last: seq<T>)
    ensures Flatten(lists + [last]) == Flatten(lists) + last
  {
    assert (lists + [last])[..|lists|] == lists;
  }

  lemma {:induction false} FlattenEmptyIff<T>(lists: seq<seq<T>>)
    ensures |Flatten(lists)| == 0 <==> forall i :: 0 <= i < |lists| ==> |lists[i]| == 0
  {
    if lists != [] { FlattenEmptyIff(lists[..|lists| - 1]); }
  }

  ghost function Drifts(cat: Catalogue, profiles: seq<Profile>): seq<seq<Drift>> {
    seq(|profiles|, i requires 0 <= i < |profiles| => ProfileDrift(Find(cat, profiles[i].name), profiles[i]))
  }

  ghost function Skips(cat: Catalogue, profiles: seq<Profile>): seq<seq<Skip>> {
    seq(|profiles|, i requires 0 <= i < |profiles| => ProfileSkips(Find(cat, profiles[i].name), profiles[i]))
  }

  ghost function AllDrift(cat: Catalogue, profiles: seq<Profile>): seq<Drift> {
    Flatten(Drifts(cat, profiles))
  }

  lemma OneMoreDrift(cat: Catalogue, profiles: seq<Profile>, i: nat)
    requires i < |profiles|
    ensures AllDrift(cat, profiles[..i + 1]) ==
              AllDrift(cat, profiles[..i]) + ProfileDrift(Find(cat, profiles[i].name), profiles[i])
  {
    var before, own := Drifts(cat, profiles[..i]), ProfileDrift(Find(cat, profiles[i].name), profiles[i]);
    FlattenOneMore(before, own);
    assert Drifts(cat, profiles[..i + 1]) == before + [own];
  }

  lemma OneMoreSkip(cat: Catalogue, profiles: seq<Profile>, i: nat)
    requires i < |profiles|
    ensures Flatten(Skips(cat, profiles[..i + 1])) ==
              Flatten(Skips(cat, profiles[..i])) + ProfileSkips(Find(cat, profiles[i].name), profiles[i])
  {
    var before, own := Skips(cat, profiles[..i]), ProfileSkips(Find(cat, profiles[i].name), profiles[i]);
    FlattenOneMore(before, own);
    assert Skips(cat, profiles[..i + 1]) == before + [own];
  }

  method ComputeDrift(cat: Catalogue, profiles: seq<Profile>) returns (drift: seq<Drift>, skipped: seq<Skip>)
    ensures drift == AllDrift(cat, profiles)
    ensures skipped == Flatten(Skips(cat, profiles))
  {
    var bySku, byAlias := BuildIndex(cat);
    drift, skipped := [], [];
    for i := 0 to |profiles|
      invariant drift == AllDrift(cat, profiles[..i])
      invariant skipped == Flatten(Skips(cat, profiles[..i]))
    {
      var profile := profiles[i];
      var key := cat.canon(profile.name);
      var found := if key in bySku then Get(bySku, key) else Get(byAlias, key);
      assert found == Find(cat, profile.name) by {
        assert Get(bySku, key) == BySku(cat.canon, cat.products, key);
      }
      OneMoreDrift(cat, profiles, i);
      OneMoreSkip(cat, profiles, i);
      drift := drift + ProfileDrift(found, profile);
      skipped := skipped + ProfileSkips(found, profile);
    }
    assert profiles[..|profiles|] == profiles;
  }

  ghost predicate UniqueIds(profiles: seq<Profile>) {
    forall i, j :: 0 <= i < j < |profiles| ==> profiles[i].id != profiles[j].id
  }

  /** Every list of drift speaks of its own profile only. */
  ghost predicate OwnIds(profiles: seq<Profile>, lists: seq<seq<Drift>>) {
    |lists| == |profiles| && forall i, d :: 0 <= i < |lists| && d in lists[i] ==> d.id == profiles[i].id
  }

  lemma {:induction false} NotMine(profiles: seq<Profile>, lists: seq<seq<Drift>>, id: int)
    requires OwnIds(profiles, lists) && forall i :: 0 <= i < |profiles| ==> profiles[i].id != id
    ensures forall d :: d in Flatten(lists) ==> d.id != id
  {
    if lists != [] {
      var n := |lists| - 1;
      assert OwnIds(profiles[..n], lists[..n]);
      NotMine(profiles[..n], lists[..n], id);
    }
  }

  /** With unique ids a profile sees its own drift only. */
  lemma {:induction false} OnlyOwnDrift(profiles: seq<Profile>, lists: seq<seq<Drift>>, i: nat)
    requires UniqueIds(profiles) && OwnIds(profiles, lists) && i < |profiles|
    ensures AppliedRow(profiles[i], Flatten(lists)) == AppliedRow(profiles[i], lists[i])
  {
    var n := |profiles| - 1;
    var front, rest := profiles[..n], lists[..n];
    assert OwnIds(front, rest);
    AppliedConcat(profiles[i], Flatten(rest), lists[n]);
    if i < n {
      OnlyOwnDrift(front, rest, i);
      AppliedKeepsId(profiles[i], lists[i]);
      OthersDoNotTouch(AppliedRow(profiles[i], lists[i]), lists[n]);
    } else {
      NotMine(front, rest, profiles[n].id);
      OthersDoNotTouch(profiles[n], Flatten(rest));
    }
  }

  lemma {:induction false} AppliedKeepsId(profile: Profile, drift: seq<Drift>)
    ensures AppliedRow(profile, drift).id == profile.id
  {
    if drift != [] { AppliedKeepsId(profile, drift[..|drift| - 1]); }
  }

  lemma DriftSettlesRow(cat: Catalogue, profiles: seq<Profile>, i: nat)
    requires UniqueIds(profiles) && i < |profiles|
    ensures AppliedRow(profiles[i], AllDrift(cat, profiles)) == Settled(Find(cat, profiles[i].name), profiles[i])
  {
    forall k | 0 <= k < |profiles| ensures forall d :: d in Drifts(cat, profiles)[k] ==> d.id == profiles[k].id {
      OwnDriftSettles(Find(cat, profiles[k].name), profiles[k]);
    }
    OnlyOwnDrift(profiles, Drifts(cat, profiles), i);
    OwnDriftSettles(Find(cat, profiles[i].name), profiles[i]);
  }

  /** The SQLite table of profiles, in the order it is read. */
  class Ekranchik {
    var profiles: seq<Profile>

    constructor (profiles: seq<Profile>)
      ensures this.profiles == profiles
    {
      this.profiles := profiles;
    }

    /** Only lengths and norms are written; a profile that is not in the catalogue is left alone. */
    method ApplyDrift(drift: seq<Drift>)
      modifies this
      ensures profiles == Applied(old(profiles), drift)
    {
      for i := 0 to |drift|
        invariant profiles == Applied(old(profiles), drift[..i])
      {
        assert drift[..i + 1][..i] == drift[..i];
        if drift[i].Missing? {
          assert UpdateRows(profiles, drift[i]) == profiles;
        } else {
          profiles := UpdateRows(profiles, drift[i]);
        }
      }
      assert drift[..|drift|] == drift;
    }

    /** `--apply`: compare, write, and compare again. */
    method Sync(cat: Catalogue) returns (applied: seq<Drift>, remaining: seq<Drift>)
      requires UniqueIds(profiles)
      modifies this
      ensures applied == AllDrift(cat, old(profiles)) && remaining == AllDrift(cat, profiles)
      ensures |profiles| == |old(profiles)|
      ensures forall i :: 0 <= i < |profiles| ==>
                profiles[i] == Settled(Find(cat, old(profiles)[i].name), old(profiles)[i])
    {
      var skipped;
      applied, skipped := ComputeDrift(cat, profiles);
      ApplyDrift(applied);
      forall i | 0 <= i < |old(profiles)|
        ensures |profiles| == |old(profiles)|
        ensures profiles[i] == Settled(Find(cat, old(profiles)[i].name), old(profiles)[i])
      {
        AppliedAt(old(profiles), applied, i);
        DriftSettlesRow(cat, old(profiles), i);
      }
      if |old(profiles)| == 0 { SameSize(old(profiles), applied); }
      remaining, skipped := ComputeDrift(cat, profiles);
    }
  }

  lemma {:induction false} SameSize(profiles: seq<Profile>, drift: seq<Drift>)
    ensures |Applied(profiles, drift)| == |profiles|
  {
    if drift != [] { SameSize(profiles, drift[..|drift| - 1]); }
  }

  // ----- what remains

  /** A profile without drift is left exactly as it was. */
  lemma NoDriftNoChange(found: Option<Product>, profile: Profile)
    requires ProfileDrift(found, profile) == []
    ensures Settled(found, profile) == profile
  {
    OwnDriftSettles(found, profile);
  }

  lemma {:induction false} FirstNormalExists(lengths: seq<Length>, item: Length)
    requires item in lengths
    ensures FirstNormal(lengths, item.length).Some?
  {
    FirstNormalAt(lengths, item.length);
  }

  /** After one run every length is one of the catalogue: no length drift remains, whatever the lengths. */
  lemma LengthsSettle(product: Product, profile: Profile)
    requires product.lengths != []
    ensures NewLength(product, Settled(Some(product), profile)).None?
  {
    MainLengthIs(product.lengths);
    FirstNormalExists(product.lengths, MainLength(product.lengths));
  }

  /** What the second comparison reads from the norm that the first one left. */
  function SeenAfter(product: Product, profile: Profile): int
    requires product.lengths != []
  {
    match TargetNorm(product, profile)
    case None => Seen(profile.n)
    case Some(norm) => if norm == 0 then -1 else norm
  }

  /** The length that the second comparison resolves to: the first one near the main length, if the length
      was replaced. */
  function Rematched(product: Product, profile: Profile): Length
    requires product.lengths != []
  {
    if MatchLength(product.lengths, profile.length).Some? then Resolved(product, profile)
    else match FirstNormal(product.lengths, MainLength(product.lengths).length)
      case Some(item) => item
      case None => MainLength(product.lengths)
  }

  lemma RematchedIsResolved(product: Product, profile: Profile)
    requires product.lengths != []
    ensures Resolved(product, Settled(Some(product), profile)) == Rematched(product, profile)
  {
    MainLengthIs(product.lengths);
    FirstNormalExists(product.lengths, MainLength(product.lengths));
  }

  lemma SeenAfterIsSeen(product: Product, profile: Profile)
    requires product.lengths != []
    ensures Seen(Settled(Some(product), profile).n) == SeenAfter(product, profile)
  {
  }

  /** One run leaves a norm drift: the length read back has another norm than the one that was written. */
  predicate NormRemains(product: Product, profile: Profile)
    requires product.lengths != []
  {
    var norm := EffectiveN(product, Rematched(product, profile).length);
    norm.Some? && norm.value != SeenAfter(product, profile)
  }

  /** Exactly when a norm drift remains after one run, for any product. */
  lemma NormRemainsIff(product: Product, profile: Profile)
    requires product.lengths != []
    ensures NewNorm(product, Settled(Some(product), profile)).Some? <==> NormRemains(product, profile)
  {
    RematchedIsResolved(product, profile);
    SeenAfterIsSeen(product, profile);
  }

  /** The lengths of a product are more than a millimetre apart. */
  ghost predicate Spread(lengths: seq<Length>) {
    forall i, j :: 0 <= i < j < |lengths| ==> !Near(lengths[i].length, lengths[j].length)
  }

  lemma {:induction false} OnlyNear(lengths: seq<Length>, k: nat)
    requires Spread(lengths) && k < |lengths|
    ensures FirstNormal(lengths, lengths[k].length) == Some(lengths[k])
  {
    if k > 0 {
      var tail := lengths[1..];
      assert Spread(tail) && tail[k - 1] == lengths[k];
      OnlyNear(tail, k - 1);
    }
  }

  /** With lengths apart a norm drift remains exactly for the norm zero, which reads as unknown. */
  lemma NormSettlesIffNotZero(product: Product, profile: Profile)
    requires product.lengths != [] && Spread(product.lengths)
    ensures NewNorm(product, Settled(Some(product), profile)).Some? <==> TargetNorm(product, profile) == Some(0)
  {
    NormRemainsIff(product, profile);
    var main := MainLength(product.lengths);
    MainLengthIs(product.lengths);
    var k :| 0 <= k < |product.lengths| && product.lengths[k] == main;
    OnlyNear(product.lengths, k);
    assert Rematched(product, profile) == Resolved(product, profile);
    if TargetNorm(product, profile).None? {
      assert EffectiveN(product, Rematched(product, profile).length).None?;
    }
  }

  /** Two runs settle lengths of any spread: what is left is a norm of zero. */
  lemma TwoRunsSettle(product: Product, profile: Profile)
    requires product.lengths != []
    ensures var once := Settled(Some(product), profile);
            var twice := Settled(Some(product), once);
            && NewLength(product, twice).None?
            && (NewNorm(product, twice).Some? <==> TargetNorm(product, once) == Some(0))
  {
    var once := Settled(Some(product), profile);
    LengthsSettle(product, profile);
    LengthsSettle(product, once);
    NormRemainsIff(product, once);
    assert Rematched(product, once) == Resolved(product, once);
  }

  ghost predicate Settles(cat: Catalogue, profile: Profile) {
    var found := Find(cat, profile.name);
    found.Some? && (found.value.lengths == [] || !NormRemains(found.value, profile))
  }

  lemma SettledDrift(cat: Catalogue, profile: Profile)
    ensures var found := Find(cat, profile.name);
            && Find(cat, Settled(found, profile).name) == found
            && (|ProfileDrift(found, Settled(found, profile))| == 0 <==> Settles(cat, profile))
  {
    var found := Find(cat, profile.name);
    if found.Some? && found.value.lengths != [] {
      LengthsSettle(found.value, profile);
      NormRemainsIff(found.value, profile);
    }
  }

  /** After `--apply` the gate passes exactly when every profile is in the catalogue and no profile's norm
      remains. */
  lemma GatePassesIff(cat: Catalogue, before: seq<Profile>, after: seq<Profile>)
    requires |after| == |before|
    requires forall i :: 0 <= i < |before| ==> after[i] == Settled(Find(cat, before[i].name), before[i])
    ensures |AllDrift(cat, after)| == 0 <==> forall i :: 0 <= i < |before| ==> Settles(cat, before[i])
  {
    FlattenEmptyIff(Drifts(cat, after));
    forall i | 0 <= i < |before|
      ensures |Drifts(cat, after)[i]| == 0 <==> Settles(cat, before[i])
    {
      SettledDrift(cat, before[i]);
    }
  }

  ghost predicate KnownWithoutZero(cat: Catalogue, profile: Profile) {
    var found := Find(cat, profile.name);
    found.Some? && (found.value.lengths == [] || TargetNorm(found.value, profile) != Some(0))
  }

  ghost predicate SpreadIfFound(cat: Catalogue, profile: Profile) {
    var found := Find(cat, profile.name);
    found.Some? ==> Spread(found.value.lengths)
  }

  lemma SettlesWhenSpread(cat: Catalogue, profile: Profile)
    requires SpreadIfFound(cat, profile)
    ensures Settles(cat, profile) <==> KnownWithoutZero(cat, profile)
  {
    var found := Find(cat, profile.name);
    if found.Some? && found.value.lengths != [] {
      NormRemainsIff(found.value, profile);
      NormSettlesIffNotZero(found.value, profile);
    }
  }

  /** With the lengths of every product apart, it passes exactly when every profile is in the catalogue and
      no norm is zero. */
  lemma GatePassesWhenSpread(cat: Catalogue, before: seq<Profile>, after: seq<Profile>)
    requires |after| == |before|
    requires forall i :: 0 <= i < |before| ==> after[i] == Settled(Find(cat, before[i].name), before[i])
    requires forall i :: 0 <= i < |before| ==> SpreadIfFound(cat, before[i])
    ensures |AllDrift(cat, after)| == 0 <==> forall i :: 0 <= i < |before| ==> KnownWithoutZero(cat, before[i])
  {
    GatePassesIff(cat, before, after);
    forall i | 0 <= i < |before| ensures Settles(cat, before[i]) <==> KnownWithoutZero(cat, before[i]) {
      SettlesWhenSpread(cat, before[i]);
    }
  }

  /** A norm of zero is written again on every run. */
  lemma ZeroNormNeverSettles(profile: Profile)
    ensures var l := Length(Mm(2700.0), true, None);
            var product := Product(profile.name, false, map[l.length := Norm(Some(0), None)], [], [l]);
            var found := Some(product);
            && NewNorm(product, profile).Some?
            && NewNorm(product, Settled(found, profile)).Some?
  {
    var l := Length(Mm(2700.0), true, None);
    var product := Product(profile.name, false, map[l.length := Norm(Some(0), None)], [], [l]);
    assert TargetNorm(product, profile) == Some(0) by {
      MainLengthIs(product.lengths);
      if profile.length.Some? { MatchLengthIff(product.lengths, profile.length.value); }
      assert Resolved(product, profile) in product.lengths;
    }
    assert Spread(product.lengths);
    NormSettlesIffNotZero(product, profile);
  }

  /** Two lengths within a millimetre: the length is set to the primary one, and then read back as the other. */
  lemma CloseLengthsNeedTwoRuns(id: int, name: Name)
    ensures var a, b := Length(Mm(2700.0), false, None), Length(Mm(2701.0), true, None);
            var norms := map[a.length := Norm(Some(5), None), b.length := Norm(Some(7), None)];
            var product := Product(name, false, norms, [], [a, b]);
            var profile := Profile(id, name, None, None);
            NewNorm(product, Settled(Some(product), profile)).Some?
  {
    var a, b := Length(Mm(2700.0), false, None), Length(Mm(2701.0), true, None);
    var norms := map[a.length := Norm(Some(5), None), b.length := Norm(Some(7), None)];
    var product := Product(name, false, norms, [], [a, b]);
    var profile := Profile(id, name, None, None);
    assert Primaries([b]) == [b];
    assert product.lengths[1..] == [b];
    assert MainLength(product.lengths) == b;
    assert FirstNormal(product.lengths, b.length) == Some(a);
    NormRemainsIff(product, profile);
  }
}

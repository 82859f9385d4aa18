/**
 * The model drop-down (src/components/ModelSelector.tsx): a copy of the model
 * list sorted by provider and then by id, and the options shown for it.
 *
 * `localeCompare` is replaced by the ordinal lexicographic order on code points;
 * `Array.prototype.sort` is stable, so models with the same provider and id keep
 * their relative order.
 */
module ModelSelector {
  import opened Wrappers
  import opened Strings

  /** A model as the drop-down sees it: the `id` and the optional `litellm_provider` of
      the `ModelInfo` interface (src/types.ts), the only two fields the component reads.
      The lists the catalog builds (`ModelCatalog.ModelInfo`) always carry a provider. */
  datatype Choice = Choice(id: string, provider: Option<string>)

  /** Ordinal lexicographic order: `a` sorts strictly before `b`. */
  predicate StrLess(a: string, b: string)
    decreases |a|
  {
    if |a| == 0 then |b| > 0
    else if |b| == 0 then false
    else if a[0] != b[0] then a[0] < b[0]
    else StrLess(a[1..], b[1..])
  }

  /** Two different strings are ordered one way or the other, never both. */
  lemma {:induction false} StrLessTotal(a: string, b: string)
    ensures a != b ==> StrLess(a, b) || StrLess(b, a)
    ensures !(StrLess(a, b) && StrLess(b, a))
    decreases |a|
  {
    if |a| > 0 && |b| > 0 && a[0] == b[0] {
      StrLessTotal(a[1..], b[1..]);
      if a != b {
        assert a == [a[0]] + a[1..] && b == [b[0]] + b[1..];
      }
    }
  }

  /** The provider the comparator reads: `litellm_provider || ''`. */
  function ProviderKey(c: Choice): string {
    OrElse(c.provider, "")
  }

  /** The comparator, read as an order: providers first, then ids when the providers match. */
  predicate KeyLess(a: Choice, b: Choice) {
    var pa := ProviderKey(a);
    var pb := ProviderKey(b);
    if pa != pb then StrLess(pa, pb) else StrLess(a.id, b.id)
  }

  predicate SameKey(a: Choice, b: Choice) {
    ProviderKey(a) == ProviderKey(b) && a.id == b.id
  }

  /** `a` may stand before `b` in the sorted list. */
  predicate KeyLe(a: Choice, b: Choice) {
    KeyLess(a, b) || SameKey(a, b)
  }

  lemma KeyLeTotal(a: Choice, b: Choice)
    ensures KeyLe(a, b) || KeyLe(b, a)
  {
    StrLessTotal(ProviderKey(a), ProviderKey(b));
    StrLessTotal(a.id, b.id);
  }

  predicate Sorted(s: seq<Choice>) {
    forall i, j :: 0 <= i < j < |s| ==> KeyLe(s[i], s[j])
  }

  /** `x` put before the first element it may stand before. */
  function Insert(x: Choice, t: seq<Choice>): (r: seq<Choice>)
    ensures |r| == |t| + 1
    ensures multiset(r) == multiset(t) + multiset{x}
  {
    if |t| == 0 then [x]
    else if KeyLe(x, t[0]) then [x] + t
    else
      var r := [t[0]] + Insert(x, t[1..]);
      assert t == [t[0]] + t[1..];
      r
  }

  /** A stable sort of the models: `[...models].sort(comparator)`. */
  function SortModels(models: seq<Choice>): (r: seq<Choice>)
    ensures multiset(r) == multiset(models)
  {
    if |models| == 0 then []
    else
      var r := Insert(models[0], SortModels(models[1..]));
      assert models == [models[0]] + models[1..];
      r
  }

  lemma {:induction false} InsertSorted(x: Choice, t: seq<Choice>)
    requires Sorted(t)
    ensures Sorted(Insert(x, t))
  {
    if |t| > 0 {
      if KeyLe(x, t[0]) {
        var r := [x] + t;
        forall i, j | 0 <= i < j < |r| ensures KeyLe(r[i], r[j]) {
          if i == 0 {
            KeyLeTrans(x, t[0], t[j - 1]);
          }
        }
      } else {
        KeyLeTotal(x, t[0]);
        var tail := t[1..];
        assert Sorted(tail);
        InsertSorted(x, tail);
        var ins := Insert(x, tail);
        var r := [t[0]] + ins;
        forall j | 0 <= j < |ins| ensures KeyLe(t[0], ins[j]) {
          InsertMember(x, tail, j);
          if ins[j] != x {
            var k :| 0 <= k < |tail| && tail[k] == ins[j];
            assert tail[k] == t[k + 1];
          }
        }
      }
    }
  }

  /** Every element of `Insert(x, t)` is `x` or an element of `t`. */
  lemma InsertMember(x: Choice, t: seq<Choice>, j: nat)
    requires j < |t| + 1
    ensures Insert(x, t)[j] == x || Insert(x, t)[j] in t
  {
    var r := Insert(x, t);
    assert r[j] in multiset(r);
  }

  lemma KeyLeTrans(a: Choice, b: Choice, c: Choice)
    requires KeyLe(a, b) && KeyLe(b, c)
    ensures KeyLe(a, c)
  {
    var pa, pb, pc := ProviderKey(a), ProviderKey(b), ProviderKey(c);
    StrLessTrans(pa, pb, pc);
    StrLessTotal(pa, pb);
    StrLessTotal(pa, pc);
    StrLessTrans(a.id, b.id, c.id);
    StrLessTotal(a.id, b.id);
    StrLessTotal(a.id, c.id);
  }

  lemma {:induction false} StrLessTrans(a: string, b: string, c: string)
    ensures StrLess(a, b) && StrLess(b, c) ==> StrLess(a, c)
    decreases |a|
  {
    if |a| > 0 && |b| > 0 && |c| > 0 && StrLess(a, b) && StrLess(b, c) {
      StrLessTrans(a[1..], b[1..], c[1..]);
    }
  }

  /** The sorted copy is ordered by provider, then by id. */
  lemma {:induction false} SortModelsSorted(models: seq<Choice>)
    ensures Sorted(SortModels(models))
  {
    if |models| > 0 {
      SortModelsSorted(models[1..]);
      InsertSorted(models[0], SortModels(models[1..]));
    }
  }

  /** The models among `s` with the same provider and id as `k`, in order. */
  function WithKey(s: seq<Choice>, k: Choice): (r: seq<Choice>)
    ensures forall i :: 0 <= i < |r| ==> SameKey(r[i], k)
  {
    if |s| == 0 then []
    else if SameKey(s[0], k) then [s[0]] + WithKey(s[1..], k)
    else WithKey(s[1..], k)
  }

  lemma {:induction false} InsertWithKey(x: Choice, t: seq<Choice>, k: Choice)
    requires Sorted(t)
    ensures WithKey(Insert(x, t), k) == if SameKey(x, k) then [x] + WithKey(t, k) else WithKey(t, k)
  {
    if |t| > 0 {
      if KeyLe(x, t[0]) {
        assert ([x] + t)[1..] == t;
      } else {
        assert Sorted(t[1..]);
        InsertWithKey(x, t[1..], k);
        assert ([t[0]] + Insert(x, t[1..]))[1..] == Insert(x, t[1..]);
      }
    }
  }

  /** The sort is stable: models with the same provider and id keep their input order. */
  lemma {:induction false} SortModelsStable(models: seq<Choice>, k: Choice)
    ensures WithKey(SortModels(models), k) == WithKey(models, k)
  {
    if |models| > 0 {
      SortModelsStable(models[1..], k);
      SortModelsSorted(models[1..]);
      InsertWithKey(models[0], SortModels(models[1..]), k);
    }
  }

  /** One `<option>`: its value and its caption. */
  datatype Entry = Entry(value: string, caption: string)

  function ModelEntry(c: Choice): Entry {
    Entry(c.id, c.id + (if Truthy(c.provider) then " (" + c.provider.value + ")" else ""))
  }

  function ModelEntries(s: seq<Choice>): (r: seq<Entry>)
    ensures |r| == |s| && forall i :: 0 <= i < |s| ==> r[i] == ModelEntry(s[i])
  {
    if |s| == 0 then [] else [ModelEntry(s[0])] + ModelEntries(s[1..])
  }

  /** The options of the drop-down. `error` is `string | null`. */
  function Options(models: seq<Choice>, selected: string, isLoading: bool, error: Option<string>): seq<Entry> {
    if isLoading then [Entry(selected, "Loading models...")]
    else if Truthy(error) then [Entry(selected, selected + " (using fallback)")]
    else
      var sorted := SortModels(models);
      if |sorted| == 0 then [Entry(selected, selected + " (default)")]
      else ModelEntries(sorted)
  }

  /** While loading, on an error, or with no models, the drop-down shows one option whose
      value is the selected model, the loading and error checks coming first; otherwise it
      shows one option per model, in sorted order, valued by the model's id. */
  lemma OptionsShape(models: seq<Choice>, selected: string, isLoading: bool, error: Option<string>)
    ensures isLoading ==> Options(models, selected, isLoading, error) == [Entry(selected, "Loading models...")]
    ensures !isLoading && Truthy(error) ==>
              Options(models, selected, isLoading, error) == [Entry(selected, selected + " (using fallback)")]
    ensures !isLoading && !Truthy(error) && models == [] ==>
              Options(models, selected, isLoading, error) == [Entry(selected, selected + " (default)")]
    ensures !isLoading && !Truthy(error) && models != [] ==>
              |Options(models, selected, isLoading, error)| == |models|
              && forall i :: 0 <= i < |models| ==>
                   Options(models, selected, isLoading, error)[i].value == SortModels(models)[i].id
  {
    if models != [] {
      assert models[0] in multiset(models);
      assert |SortModels(models)| == |models| by {
        assert |multiset(SortModels(models))| == |multiset(models)|;
      }
    }
  }
}

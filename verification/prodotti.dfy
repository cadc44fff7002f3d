/** The product catalogue of `src/lib/services/prodotti.ts`: the listing of
    active products in (category, name) order, the grouping of that listing by
    category, and the soft delete that clears the `attivo` flag. */
module Prodotti {
  import opened Basics
  import opened Strings
  import Seqs

  /** A row of `prodotti`; optional columns are `Option`s. */
  datatype Product = Product(
    id: string,
    nome: string,
    descrizione: Option<string>,
    prezzo: real,
    categoria: string,
    attivo: Option<bool>)

  /** `.eq('attivo', true)`: a missing flag does not match. */
  predicate IsActive(p: Product) {
    p.attivo == Some(true)
  }

  /** `.order('categoria').order('nome')`, with text compared by code point. */
  predicate CategoriaNomeLe(a: Product, b: Product) {
    if a.categoria == b.categoria then LexLe(a.nome, b.nome) else LexLe(a.categoria, b.categoria)
  }

  lemma CategoriaNomeOrder()
    ensures Seqs.Total(CategoriaNomeLe) && Seqs.Transitive(CategoriaNomeLe)
  {
    forall a: Product, b: Product
      ensures CategoriaNomeLe(a, b) || CategoriaNomeLe(b, a)
    {
      LexLeTotal(a.categoria, b.categoria);
      LexLeTotal(a.nome, b.nome);
    }
    forall a: Product, b: Product, c: Product | CategoriaNomeLe(a, b) && CategoriaNomeLe(b, c)
      ensures CategoriaNomeLe(a, c)
    {
      if a.categoria == b.categoria && b.categoria == c.categoria {
        LexLeTransitive(a.nome, b.nome, c.nome);
      } else if a.categoria != b.categoria && b.categoria != c.categoria {
        LexLeTransitive(a.categoria, b.categoria, c.categoria);
        if a.categoria == c.categoria {
          LexLeAntisymmetric(a.categoria, b.categoria);
        }
      }
    }
  }

  /** `getProdotti()`: exactly the active products, each as often as stored,
      ordered by category and then by name. */
  function GetProdotti(table: seq<Product>): (r: seq<Product>)
    ensures forall p :: p in r <==> p in table && IsActive(p)
    ensures forall p :: multiset(r)[p] == if IsActive(p) then multiset(table)[p] else 0
    ensures Seqs.SortedBy(r, CategoriaNomeLe)
  {
    var r := Seqs.SortBy(Seqs.Filter(table, IsActive), CategoriaNomeLe);
    assert forall p :: p in r <==> p in multiset(r);
    forall p
      ensures multiset(r)[p] == if IsActive(p) then multiset(table)[p] else 0
    {
      Seqs.FilterMultiset(table, IsActive, p);
    }
    CategoriaNomeOrder();
    Seqs.SortBySorted(Seqs.Filter(table, IsActive), CategoriaNomeLe);
    r
  }

  // ---------------------------------------------------------------------------
  // Soft delete

  /** `deleteProdotto(id)`: the update `attivo = false` on the rows with that
      id; the result is the write's success, also when no row has the id. */
  function DeleteProdotto(table: seq<Product>, id: string, writeOk: bool): (r: (seq<Product>, bool))
    ensures r.1 == writeOk
    ensures !writeOk ==> r.0 == table
    ensures |r.0| == |table|
    ensures forall i :: 0 <= i < |table| && table[i].id != id ==> r.0[i] == table[i]
    ensures writeOk ==> forall i :: 0 <= i < |table| && table[i].id == id ==>
      r.0[i].attivo == Some(false) && r.0[i] == table[i].(attivo := Some(false))
  {
    if writeOk then
      var after := Seqs.Map(table, Deactivate(id));
      assert forall i :: 0 <= i < |table| ==> after[i] == Deactivate(id)(table[i]);
      (after, true)
    else (table, false)
  }

  function Deactivate(id: string): Product -> Product {
    (p: Product) => if p.id == id then p.(attivo := Some(false)) else p
  }

  /** After a successful delete no product with that id is listed, while the
      listing of every other product is unchanged. */
  lemma DeleteHidesProduct(table: seq<Product>, id: string)
    ensures var after := DeleteProdotto(table, id, true).0;
      && (forall p :: p in GetProdotti(after) ==> p.id != id)
      && (forall p: Product :: p.id != id ==> (p in GetProdotti(after) <==> p in GetProdotti(table)))
  {
    var after := DeleteProdotto(table, id, true).0;
    forall p: Product | p.id != id
      ensures p in after <==> p in table
    {
      if p in table {
        var i :| 0 <= i < |table| && table[i] == p;
        assert after[i] == p;
      }
    }
  }

  /** The deleted row is still stored, with every field but `attivo` as it
      was: a soft delete keeps the record. */
  lemma DeleteKeepsRecord(table: seq<Product>, id: string, i: nat)
    requires i < |table| && table[i].id == id
    ensures var after := DeleteProdotto(table, id, true).0;
      && after[i].id == table[i].id && after[i].nome == table[i].nome
      && after[i].descrizione == table[i].descrizione && after[i].prezzo == table[i].prezzo
      && after[i].categoria == table[i].categoria && after[i].attivo == Some(false)
  {
  }

  // ---------------------------------------------------------------------------
  // Grouping by category

  function Categoria(p: Product): string { p.categoria }

  function InCategoria(c: string): Product -> bool {
    (p: Product) => p.categoria == c
  }

  /** The categories in order of first appearance. This is the key order of
      the grouped object when no category is an integer-like text such as
      "12": an object lists such keys first, in ascending numeric order, and
      only the other keys in insertion order. */
  function Categories(ps: seq<Product>): (r: seq<string>)
    ensures Seqs.NoDuplicates(r)
    ensures forall c :: c in r <==> exists p :: p in ps && p.categoria == c
  {
    var r := Seqs.Dedup(Seqs.Map(ps, Categoria));
    forall c | c in r
      ensures exists p :: p in ps && p.categoria == c
    {
      var i :| 0 <= i < |ps| && Seqs.Map(ps, Categoria)[i] == c;
      assert ps[i] in ps;
    }
    forall p | p in ps
      ensures p.categoria in r
    {
      var i :| 0 <= i < |ps| && ps[i] == p;
      assert Seqs.Map(ps, Categoria)[i] == p.categoria;
    }
    r
  }

  /** The reduce of `getProdottiByCategoria` on a dictionary with no inherited
      keys: each product is pushed onto its category's list, which the first
      product of the category creates. */
  function Group(ps: seq<Product>): (g: map<string, seq<Product>>)
    ensures forall c :: c in g <==> exists p :: p in ps && p.categoria == c
  {
    if ps == [] then map[]
    else
      var rest := ps[..|ps| - 1];
      var p := ps[|ps| - 1];
      var acc := Group(rest);
      assert ps == rest + [p];
      acc[p.categoria := (if p.categoria in acc then acc[p.categoria] else []) + [p]]
  }

  /** Each group holds exactly the products of its category, in input order. */
  lemma {:induction false} GroupIsFilter(ps: seq<Product>, c: string)
    requires c in Group(ps)
    ensures Group(ps)[c] == Seqs.Filter(ps, InCategoria(c))
    decreases |ps|
  {
    var rest := ps[..|ps| - 1];
    var p := ps[|ps| - 1];
    var acc := Group(rest);
    assert ps == rest + [p];
    Seqs.FilterSnoc(rest, p, InCategoria(c));
    if c in acc {
      GroupIsFilter(rest, c);
    } else if c == p.categoria {
      Seqs.FilterNoneIsEmpty(rest, InCategoria(c));
    }
  }

  /** Every product sits in exactly its own category's group, once for each
      time it occurs, and no group is empty. */
  lemma GroupPlacesEachProduct(ps: seq<Product>, p: Product)
    ensures var g := Group(ps);
      && (p in ps ==> p.categoria in g && p in g[p.categoria])
      && (forall c :: c in g ==> multiset(g[c])[p] == if p.categoria == c then multiset(ps)[p] else 0)
      && (forall c :: c in g ==> g[c] != [])
  {
    var g := Group(ps);
    forall c | c in g
      ensures multiset(g[c])[p] == if p.categoria == c then multiset(ps)[p] else 0
      ensures g[c] != []
    {
      GroupIsFilter(ps, c);
      Seqs.FilterMultiset(ps, InCategoria(c), p);
      var q :| q in ps && q.categoria == c;
      assert q in g[c];
    }
  }

  /** Within a group the products keep their order in the listing: the
      group is a subsequence of the input. */
  lemma {:induction false} GroupKeepsOrder(ps: seq<Product>, c: string)
    ensures IsSubsequence(Seqs.Filter(ps, InCategoria(c)), ps)
    decreases |ps|
  {
    if ps != [] {
      var rest := ps[..|ps| - 1];
      var p := ps[|ps| - 1];
      GroupKeepsOrder(rest, c);
      SubsequenceSnoc(Seqs.Filter(rest, InCategoria(c)), rest, p);
      assert ps == rest + [p];
    }
  }

  /** `a` is `b` with some elements removed: an increasing choice of
      positions of `b` spells out `a`. */
  ghost predicate IsSubsequence(a: seq<Product>, b: seq<Product>) {
    exists pos: seq<nat> ::
      && |pos| == |a|
      && (forall k :: 0 <= k < |pos| ==> pos[k] < |b| && b[pos[k]] == a[k])
      && (forall k, l :: 0 <= k < l < |pos| ==> pos[k] < pos[l])
  }

  lemma SubsequenceSnoc(a: seq<Product>, b: seq<Product>, x: Product)
    requires IsSubsequence(a, b)
    ensures IsSubsequence(a, b + [x]) && IsSubsequence(a + [x], b + [x])
  {
    var pos: seq<nat> :| && |pos| == |a|
      && (forall k :: 0 <= k < |pos| ==> pos[k] < |b| && b[pos[k]] == a[k])
      && (forall k, l :: 0 <= k < l < |pos| ==> pos[k] < pos[l]);
    assert forall k :: 0 <= k < |pos| ==> (b + [x])[pos[k]] == a[k];
    var pos' := pos + [|b|];
    assert forall k :: 0 <= k < |pos'| ==> pos'[k] < |b + [x]| && (b + [x])[pos'[k]] == (a + [x])[k];
  }

  /** The sizes of the groups named in `keys`. */
  function SizeSum(g: map<string, seq<Product>>, keys: seq<string>): nat {
    if keys == [] then 0
    else SizeSum(g, keys[..|keys| - 1]) + (if keys[|keys| - 1] in g then |g[keys[|keys| - 1]]| else 0)
  }

  /** Counts of the categories in `keys`, taken directly from the list. */
  function CategoryCount(ps: seq<Product>, keys: seq<string>): nat {
    if keys == [] then 0
    else CategoryCount(ps, keys[..|keys| - 1]) + |Seqs.Filter(ps, InCategoria(keys[|keys| - 1]))|
  }

  lemma {:induction false} CategoryCountSnoc(ps: seq<Product>, x: Product, keys: seq<string>)
    requires Seqs.NoDuplicates(keys)
    ensures CategoryCount(ps + [x], keys) == CategoryCount(ps, keys) + (if x.categoria in keys then 1 else 0)
    decreases |keys|
  {
    if keys != [] {
      var keys' := keys[..|keys| - 1];
      var k := keys[|keys| - 1];
      assert keys == keys' + [k];
      CategoryCountSnoc(ps, x, keys');
      Seqs.FilterSnoc(ps, x, InCategoria(k));
      if x.categoria == k {
        assert x.categoria !in keys';
      }
    }
  }

  lemma {:induction false} CategoryCountPartition(ps: seq<Product>, keys: seq<string>)
    requires Seqs.NoDuplicates(keys)
    requires forall p :: p in ps ==> p.categoria in keys
    ensures CategoryCount(ps, keys) == |ps|
    decreases |ps|
  {
    if ps == [] {
      CategoryCountEmpty(keys);
    } else {
      var rest := ps[..|ps| - 1];
      var x := ps[|ps| - 1];
      assert ps == rest + [x];
      CategoryCountPartition(rest, keys);
      CategoryCountSnoc(rest, x, keys);
    }
  }

  lemma {:induction false} CategoryCountEmpty(keys: seq<string>)
    ensures CategoryCount([], keys) == 0
    decreases |keys|
  {
    if keys != [] {
      CategoryCountEmpty(keys[..|keys| - 1]);
    }
  }

  lemma {:induction false} SizeSumOfGroup(ps: seq<Product>, keys: seq<string>)
    requires forall k :: k in keys ==> exists p :: p in ps && p.categoria == k
    ensures SizeSum(Group(ps), keys) == CategoryCount(ps, keys)
    decreases |keys|
  {
    if keys != [] {
      var keys' := keys[..|keys| - 1];
      var k := keys[|keys| - 1];
      assert keys == keys' + [k];
      assert forall x :: x in keys' ==> x in keys;
      SizeSumOfGroup(ps, keys');
      assert k in keys;
      GroupIsFilter(ps, k);
    }
  }

  /** The group sizes, over the grouped object's keys, add up to the number
      of products: nothing is lost and nothing is counted twice. */
  lemma GroupSizesSum(ps: seq<Product>)
    ensures SizeSum(Group(ps), Categories(ps)) == |ps|
  {
    SizeSumOfGroup(ps, Categories(ps));
    CategoryCountPartition(ps, Categories(ps));
  }

  /** `getProdottiByCategoria()`: the active listing grouped by category;
      the keys are the categories of the active products. */
  function ProdottiByCategoria(table: seq<Product>): (g: map<string, seq<Product>>)
    ensures forall c :: c in g <==> exists p :: p in table && IsActive(p) && p.categoria == c
  {
    Group(GetProdotti(table))
  }

  /** Each group of the catalogue is non-empty, holds only active products of
      its category, and keeps the listing's (category, name) order. */
  lemma ProdottiByCategoriaGroups(table: seq<Product>, c: string)
    requires c in ProdottiByCategoria(table)
    ensures var group := ProdottiByCategoria(table)[c];
      && group != []
      && Seqs.SortedBy(group, CategoriaNomeLe)
      && forall p :: p in group <==> p in table && IsActive(p) && p.categoria == c
  {
    var listing := GetProdotti(table);
    var q :| q in listing && q.categoria == c;
    GroupIsFilter(listing, c);
    assert q in Group(listing)[c];
    GroupKeepsOrder(listing, c);
    SortedSubsequence(Group(listing)[c], listing);
  }

  lemma SortedSubsequence(a: seq<Product>, b: seq<Product>)
    requires IsSubsequence(a, b) && Seqs.SortedBy(b, CategoriaNomeLe)
    ensures Seqs.SortedBy(a, CategoriaNomeLe)
  {
    var pos: seq<nat> :| && |pos| == |a|
      && (forall k :: 0 <= k < |pos| ==> pos[k] < |b| && b[pos[k]] == a[k])
      && (forall k, l :: 0 <= k < l < |pos| ==> pos[k] < pos[l]);
    forall k, l | 0 <= k < l < |a|
      ensures CategoriaNomeLe(a[k], a[l])
    {
      assert CategoriaNomeLe(b[pos[k]], b[pos[l]]);
    }
  }

  // ---------------------------------------------------------------------------
  // The grouping as written, on a plain object literal

  /** The names a fresh `{}` inherits from `Object.prototype`. Reading one of
      them yields a function (or, for `__proto__`, the prototype object),
      which is truthy and has no `push`. */
  predicate InheritedKey(c: string) {
    c in {"constructor", "__defineGetter__", "__defineSetter__", "hasOwnProperty",
          "__lookupGetter__", "__lookupSetter__", "isPrototypeOf", "propertyIsEnumerable",
          "toString", "valueOf", "__proto__", "toLocaleString"}
  }

  /** The reduce as written: a category whose name is inherited skips the
      `acc[categoria] = []` initialisation, the `push` then throws, and `None`
      is the exception. */
  function GroupAsWritten(ps: seq<Product>): (r: Option<map<string, seq<Product>>>)
    ensures r.Some? <==> forall p :: p in ps ==> !InheritedKey(p.categoria)
  {
    if ps == [] then Some(map[])
    else
      var rest := ps[..|ps| - 1];
      var p := ps[|ps| - 1];
      assert ps == rest + [p];
      match GroupAsWritten(rest)
      case None => None
      case Some(acc) =>
        if InheritedKey(p.categoria) then None
        else Some(acc[p.categoria := (if p.categoria in acc then acc[p.categoria] else []) + [p]])
  }

  /** `getProdottiByCategoria` as written: the `catch` turns the exception
      into an empty object. */
  function ProdottiByCategoriaAsWritten(table: seq<Product>): (g: map<string, seq<Product>>)
    ensures (forall p :: p in table && IsActive(p) ==> !InheritedKey(p.categoria)) ==>
      g == ProdottiByCategoria(table)
  {
    var listing := GetProdotti(table);
    match GroupAsWritten(listing)
    case Some(g) => GroupAsWrittenAgrees(listing); g
    case None => map[]
  }

  /** Without inherited names the written reduce is the grouping. */
  lemma {:induction false} GroupAsWrittenAgrees(ps: seq<Product>)
    requires forall p :: p in ps ==> !InheritedKey(p.categoria)
    ensures GroupAsWritten(ps) == Some(Group(ps))
    decreases |ps|
  {
    if ps != [] {
      var rest := ps[..|ps| - 1];
      assert forall p :: p in rest ==> p in ps;
      GroupAsWrittenAgrees(rest);
    }
  }

  /** One active product in category "toString" empties the whole grouping,
      where the intended result has that category with the product in it. */
  lemma InheritedCategoryEmptiesGrouping()
    ensures var table := [Product("1", "Pollo", None, 10.0, "Spiedo", Some(true)),
                          Product("2", "Acqua", None, 1.0, "toString", Some(true))];
      && ProdottiByCategoriaAsWritten(table) == map[]
      && "toString" in ProdottiByCategoria(table)
      && "Spiedo" in ProdottiByCategoria(table)
  {
    var table := [Product("1", "Pollo", None, 10.0, "Spiedo", Some(true)),
                  Product("2", "Acqua", None, 1.0, "toString", Some(true))];
    var listing := GetProdotti(table);
    assert table[1] in table && table[0] in table;
    assert table[1] in listing && table[0] in listing;
    assert InheritedKey(table[1].categoria);
  }
}

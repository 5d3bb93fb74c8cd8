/** The loader's fixed catalogue: the nine raw tables, the map from CSV file
    name to table, the load order, and the foreign-key graph that the load
    order respects. `TRUNCATE ... CASCADE` of a table empties the table and
    every table that (transitively) references it; `Cascade` is that set. */
module Catalog {

  datatype Table =
    | CustomersRaw
    | GeolocationRaw
    | OrderItemsRaw
    | OrderPaymentsRaw
    | OrderReviewsRaw
    | OrdersRaw
    | ProductsRaw
    | SellersRaw
    | ProductCategoryNameTranslationRaw

  /** CSV_TABLE_MAP: object file name to target table. */
  const CsvTableMap: map<string, Table> := map[
    "olist_customers_dataset.csv" := CustomersRaw,
    "olist_geolocation_dataset.csv" := GeolocationRaw,
    "olist_order_items_dataset.csv" := OrderItemsRaw,
    "olist_order_payments_dataset.csv" := OrderPaymentsRaw,
    "olist_order_reviews_dataset.csv" := OrderReviewsRaw,
    "olist_orders_dataset.csv" := OrdersRaw,
    "olist_products_dataset.csv" := ProductsRaw,
    "olist_sellers_dataset.csv" := SellersRaw,
    "product_category_name_translation.csv" := ProductCategoryNameTranslationRaw
  ]

  /** LOAD_ORDER: independent tables, then orders, then the order-related tables. */
  const LoadOrder: seq<string> := [
    "olist_customers_dataset.csv",
    "olist_sellers_dataset.csv",
    "olist_products_dataset.csv",
    "olist_geolocation_dataset.csv",
    "product_category_name_translation.csv",
    "olist_orders_dataset.csv",
    "olist_order_items_dataset.csv",
    "olist_order_payments_dataset.csv",
    "olist_order_reviews_dataset.csv"
  ]

  /** The index in LoadOrder of the file that loads table t. */
  function Position(t: Table): nat {
    match t
    case CustomersRaw => 0
    case SellersRaw => 1
    case ProductsRaw => 2
    case GeolocationRaw => 3
    case ProductCategoryNameTranslationRaw => 4
    case OrdersRaw => 5
    case OrderItemsRaw => 6
    case OrderPaymentsRaw => 7
    case OrderReviewsRaw => 8
  }

  /** LoadOrder and CsvTableMap name the same nine files, LoadOrder without
      repetition, so the lookup `CSV_TABLE_MAP[filename]` of a planned file
      never fails; and Position really is the LoadOrder index. */
  lemma LoadOrderMatchesTableMap()
    ensures |LoadOrder| == 9
    ensures forall i :: 0 <= i < |LoadOrder| ==> LoadOrder[i] in CsvTableMap && Position(CsvTableMap[LoadOrder[i]]) == i
    ensures forall f :: f in CsvTableMap ==> f in LoadOrder
    ensures forall i, j :: 0 <= i < j < |LoadOrder| ==> LoadOrder[i] != LoadOrder[j]
  {
  }

  /** The tables holding a foreign key to `parent` (its direct children in
      the dependency graph): orders reference customers, sellers and
      products; items, payments and reviews reference orders, and items
      also reference products and sellers. Every parent is loaded before
      each of its children. */
  function Children(parent: Table): (children: set<Table>)
    ensures forall c :: c in children ==> Position(parent) < Position(c)
  {
    match parent
    case CustomersRaw => {OrdersRaw}
    case SellersRaw => {OrdersRaw, OrderItemsRaw}
    case ProductsRaw => {OrdersRaw, OrderItemsRaw}
    case OrdersRaw => {OrderItemsRaw, OrderPaymentsRaw, OrderReviewsRaw}
    case _ => {}
  }

  /** A set of tables closed under "is referenced by". */
  ghost predicate CascadeClosed(s: set<Table>) {
    forall p, c :: p in s && c in Children(p) ==> c in s
  }

  /** The tables that `TRUNCATE t CASCADE` empties: t, its children and their
      children (the graph has no longer paths). */
  function Cascade(t: Table): (c: set<Table>)
    ensures t in c && CascadeClosed(c)
  {
    {t} + Children(t) + (set c, g | c in Children(t) && g in Children(c) :: g)
  }

  /** Cascade(t) is the least set that contains t and is closed under the
      foreign-key graph: exactly what PostgreSQL's CASCADE truncates. */
  lemma CascadeIsClosure(t: Table, s: set<Table>)
    requires t in s && CascadeClosed(s)
    ensures Cascade(t) <= s
  {
  }

  /** The property the load order exists for: a cascading truncate of a table
      only reaches tables later in LoadOrder. */
  lemma CascadeFollowsLoadOrder(t: Table, u: Table)
    requires u in Cascade(t) && u != t
    ensures Position(t) < Position(u)
  {
    if u !in Children(t) {
      var c :| c in Children(t) && u in Children(c);
    }
  }
}

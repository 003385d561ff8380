/** How a cache names its entries and its handles. */
module CacheKeys {
  type Key = seq<char>
  type Id = nat
}

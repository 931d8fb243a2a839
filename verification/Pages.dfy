/** Page arithmetic shared by the tables. */
module Pages {
  const PAGE: nat := 4096

  /** The page an address lies in. */
  function PageOf(address: nat): (page: nat)
    ensures page % PAGE == 0 && page <= address < page + PAGE
  {
    address - address % PAGE
  }
}

/** A member site, as loaded from the member list. */
module MembershipModel {

  /**
   * The columns of `Membership`, plus the `name` that the visit handler reads
   * from it; text fields are strings and timestamps are seconds.
   */
  datatype Membership = Membership(
    id: int,
    createdAt: int,
    updatedAt: int,
    homepage: string,
    domain: string,
    contact: string,
    totalReferrer: int,
    description: string,
    name: string)
}

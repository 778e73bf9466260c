/** What asking the cluster whether data is migrating can yield. */
module Migration {
  datatype MigrationCheck = Unanswered | Answer(migrating: bool)
}

/** Table metadata as the drivers report it (internal/dbx/driver.go). */
module Catalog {
  datatype Column = Column(name: string, dataType: string, nullable: bool, default: string, isPK: bool)

  datatype IndexInfo = IndexInfo(name: string, columns: seq<string>, unique: bool, primary: bool)

  datatype ForeignKey =
    ForeignKey(name: string, columns: seq<string>, refSchema: string, refTable: string, refColumns: seq<string>,
               onDelete: string, onUpdate: string)
}

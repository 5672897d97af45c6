/** Row shapes of the fleet database (shared/schema.ts) and the small
    failure-compatible wrappers the storage layer returns.
    Timestamps are integer milliseconds since the epoch; `status`, `type`
    and `priority` are free text in the database, so they stay `string`. */
module Schema {

  datatype Option<+T> = None | Some(value: T)

  /** The only failure the validator itself raises: an unknown vehicle id. */
  datatype StoreError = VehicleNotFound

  datatype Result<+R> = Success(value: R) | Failure(error: StoreError)

  /** A row of `vehicles`. `kind` is the column `type`. */
  datatype Vehicle = Vehicle(
    id: int,
    plate: string,
    model: string,
    make: string,
    year: int,
    kind: string,
    mileage: int,
    status: string)

  /** A row of `parts`; `unitPrice` is in cents. */
  datatype Part = Part(
    id: int,
    name: string,
    reference: string,
    category: string,
    stock: int,
    minStock: int,
    unitPrice: int)

  /** A row of `maintenance_records`; `completedAt` and `nextDue` are nullable. */
  datatype MaintenanceRecord = MaintenanceRecord(
    id: int,
    vehicleId: int,
    kind: string,
    description: string,
    cost: int,
    duration: int,
    technician: string,
    completedAt: Option<int>,
    nextDue: Option<int>)

  /** A row of `alerts`. */
  datatype Alert = Alert(
    id: int,
    vehicleId: int,
    kind: string,
    message: string,
    priority: string,
    isRead: bool)

  /** The payload given to `createAlert`; the database adds the serial id
      and the default `isRead = false`. */
  datatype InsertAlert = InsertAlert(
    vehicleId: int,
    kind: string,
    message: string,
    priority: string)
}

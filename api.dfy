/**
 * The backend requests the pages in this model can issue
 * (src/lib/api.ts). Only which request is made, and with which
 * arguments, is modelled; the HTTP transfer itself is not.
 */
module Api {

  datatype Request =
    | UpdateCpuThreshold(ip: string, threshold: real)
    | UpdateMemoryThreshold(ip: string, threshold: real)
    | UpdateInterfaceThreshold(ip: string, ifIndex: int, threshold: real)
    | Discover
    | AddRecipient(email: string)
    | DeleteRecipient(email: string)
}

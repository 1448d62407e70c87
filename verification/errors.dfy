/** One constructor per exception the engine raises. */
module Errors {

  datatype Error =
    | NoEntrants              // NoEntrantsException
    | NoOpponent              // NoOpponentException
    | NoMorePairings          // NoMorePairingsException
    | UnfinishedPairings      // UnfinishedPairingsException
    | RoundNotFinished        // RoundNotFinishedException
    | FinalRound              // FinalRoundException
    | AlreadyStarted          // AlreadyStartedException
    | InitialRound            // InitialRoundException
    | NoSuchEntrant           // NoSuchEntrantException
    | NoSuchPairing           // NoSuchPairingException
    | MissingEntrant          // MissingEntrantException
    | MissingPairing          // MissingPairingException
    | OrphanedPairing         // OrphanedPairingException
    | NewEntrantsNotAllowed   // NewEntrantsNotAllowedException
    | InvalidEntrant          // InvalidEntrantException
    | IllegalArgument         // IllegalArgumentException
    | Unsupported             // UnsupportedOperationException
    | NoSuchElement           // NoSuchElementException (the engine's own and java.util's)
    | Fault                   // a bare RuntimeException or a NullPointerException
}
